/** Helpers shared by the whole model: optional values, the JVM's numeric
    conversions (truncating `toInt()`, truncating `Int` division, 32-bit
    wrap-around) and the Kotlin string operations the app relies on. */
module Common {

  datatype Option<T> = None | Some(value: T)

  const MinInt: int := -0x8000_0000
  const MaxInt: int := 0x7FFF_FFFF

  /** Kotlin `Float.toInt()` / `Double.toInt()`: rounds toward zero, and a
      value beyond the `Int` range gives the nearest bound. */
  function Trunc(x: real): (r: int)
    ensures MinInt <= r <= MaxInt
    ensures 0.0 <= x < (MaxInt + 1) as real ==> 0 <= r && r as real <= x < r as real + 1.0
    ensures (MinInt - 1) as real < x < 0.0 ==> r <= 0 && r as real - 1.0 < x <= r as real
    ensures (MaxInt + 1) as real <= x ==> r == MaxInt
    ensures x <= (MinInt - 1) as real ==> r == MinInt
  {
    if x >= (MaxInt + 1) as real then MaxInt
    else if x <= (MinInt - 1) as real then MinInt
    else if x >= 0.0 then x.Floor
    else -((-x).Floor)
  }

  function Abs(x: int): nat { if x < 0 then -x else x }

  /** Kotlin/JVM `Int` division by a positive divisor: the quotient is
      truncated toward zero (Dafny's own `/` is Euclidean and differs for a
      negative dividend). */
  function Div(a: int, b: int): (q: int)
    requires b > 0
    ensures 0 <= a ==> 0 <= a - q * b < b
    ensures a < 0 ==> -b < a - q * b <= 0
  {
    if a >= 0 then a / b else -((-a) / b)
  }

  /** Kotlin/JVM `%` by a positive divisor: the remainder takes the sign of
      the dividend. */
  function Rem(a: int, b: int): (r: int)
    requires b > 0
    ensures 0 <= a ==> 0 <= r < b
    ensures a < 0 ==> -b < r <= 0
    ensures a == Div(a, b) * b + r
  {
    if a >= 0 then a % b else -((-a) % b)
  }

  /** Two's-complement wrap-around of a JVM `Int` result. */
  function Wrap32(x: int): (r: int)
    ensures MinInt <= r <= MaxInt
    ensures (r - x) % 0x1_0000_0000 == 0
    ensures MinInt <= x <= MaxInt ==> r == x
  {
    (x - MinInt) % 0x1_0000_0000 + MinInt
  }

  /** Two values in the `Int` range that agree modulo 2^32 are equal. */
  lemma {:induction false} Wrap32Unique(x: int, r1: int, r2: int)
    requires MinInt <= r1 <= MaxInt && MinInt <= r2 <= MaxInt
    requires (r1 - x) % 0x1_0000_0000 == 0 && (r2 - x) % 0x1_0000_0000 == 0
    ensures r1 == r2
  {
    var M := 0x1_0000_0000;
    var q1, q2 := (r1 - x) / M, (r2 - x) / M;
    assert r1 - x == q1 * M;
    assert r2 - x == q2 * M;
    assert r1 - r2 == (q1 - q2) * M;
  }

  /** Adding to a wrapped `Int` and wrapping again is wrapping the exact
      sum: a running total kept in an `Int` ends at the wrap of the sum. */
  lemma {:induction false} Wrap32AddWrapped(a: int, b: int)
    ensures Wrap32(Wrap32(a) + b) == Wrap32(a + b)
  {
    var M := 0x1_0000_0000;
    var w := Wrap32(a);
    var r1, r2 := Wrap32(w + b), Wrap32(a + b);
    var k1, k2, k3 := (r1 - (w + b)) / M, (w - a) / M, (r2 - (a + b)) / M;
    assert r1 - (w + b) == k1 * M;
    assert w - a == k2 * M;
    assert r1 - (a + b) == (k1 + k2) * M;
    assert (r1 - (a + b)) % M == 0;
    Wrap32Unique(a + b, r1, r2);
  }

  /** Kotlin's `Char.isWhitespace()` on the JVM: `Character.isWhitespace`
      or `Character.isSpaceChar`, i.e. the ASCII controls TAB..CR and
      FS..US plus every Unicode space, line and paragraph separator. */
  predicate IsWhitespace(c: char)
  {
    c == ' ' || ('\t' <= c <= '\r') || ('\U{1C}' <= c <= '\U{1F}') ||
    c == '\U{A0}' || c == '\U{1680}' || ('\U{2000}' <= c <= '\U{200A}') ||
    c == '\U{2028}' || c == '\U{2029}' || c == '\U{202F}' || c == '\U{205F}' ||
    c == '\U{3000}'
  }

  /** `CharSequence.isBlank()`: empty or only whitespace. */
  predicate IsBlank(s: string)
  {
    forall i :: 0 <= i < |s| ==> IsWhitespace(s[i])
  }

  function TrimStart(s: string): (r: string)
    ensures |r| <= |s| && r == s[|s| - |r|..]
    ensures r == [] || !IsWhitespace(r[0])
    ensures IsBlank(s[..|s| - |r|])
  {
    if s != [] && IsWhitespace(s[0]) then
      var r := TrimStart(s[1..]);
      assert s[..|s| - |r|] == [s[0]] + s[1..][..|s| - 1 - |r|];
      r
    else s
  }

  function TrimEnd(s: string): (r: string)
    ensures |r| <= |s| && r == s[..|r|]
    ensures r == [] || !IsWhitespace(r[|r| - 1])
    ensures IsBlank(s[|r|..])
  {
    if s != [] && IsWhitespace(s[|s| - 1]) then
      var r := TrimEnd(s[..|s| - 1]);
      assert s[|r|..] == s[..|s| - 1][|r|..] + [s[|s| - 1]];
      r
    else s
  }

  /** Kotlin `String.trim()`: drops leading and trailing whitespace. */
  function Trim(s: string): (r: string)
    ensures r == [] || (!IsWhitespace(r[0]) && !IsWhitespace(r[|r| - 1]))
  {
    TrimEnd(TrimStart(s))
  }

  /** `trim()` leaves a string that neither starts nor ends with whitespace unchanged. */
  lemma TrimKeepsTrimmed(s: string)
    requires s == [] || (!IsWhitespace(s[0]) && !IsWhitespace(s[|s| - 1]))
    ensures Trim(s) == s
  {
  }

  /** Trimming only drops characters. */
  lemma TrimKeepsChars(s: string)
    ensures forall c :: c in Trim(s) ==> c in s
  {
    var t := TrimStart(s);
    var r := Trim(s);
    forall c | c in r
      ensures c in s
    {
      var i :| 0 <= i < |r| && r[i] == c;
      assert r[i] == t[i] == s[|s| - |t| + i];
    }
  }

  /** A string is blank exactly when trimming empties it. */
  lemma {:induction false} BlankIffTrimEmpty(s: string)
    ensures IsBlank(s) <==> Trim(s) == []
  {
    var t := TrimStart(s);
    if Trim(s) == [] {
      assert IsBlank(t);
      assert s[..|s|] == s;
    } else {
      var r := Trim(s);
      assert !IsWhitespace(r[0]);
      assert r == t[..|r|] && t == s[|s| - |t|..];
      assert s[|s| - |t|] == r[0];
    }
  }

  function ToLowerAscii(c: char): (d: char)
    ensures ('A' <= c <= 'Z') ==> d as int == c as int + 32
    ensures !('A' <= c <= 'Z') ==> d == c
  {
    if 'A' <= c <= 'Z' then (c as int + 32) as char else c
  }

  /** `String.lowercase()`, restricted to the ASCII letters. */
  function Lowercase(s: string): (r: string)
    ensures |r| == |s|
    ensures forall i :: 0 <= i < |s| ==> r[i] == ToLowerAscii(s[i])
  {
    if s == [] then [] else [ToLowerAscii(s[0])] + Lowercase(s[1..])
  }

  /** `String.replace(" ", "_")`. */
  function ReplaceSpaces(s: string): (r: string)
    ensures |r| == |s|
    ensures forall i :: 0 <= i < |s| ==> r[i] == (if s[i] == ' ' then '_' else s[i])
  {
    if s == [] then [] else [if s[0] == ' ' then '_' else s[0]] + ReplaceSpaces(s[1..])
  }

  /** `a.equals(b, ignoreCase = true)`, with case folding of ASCII letters only. */
  predicate EqualsIgnoreCase(a: string, b: string)
  {
    |a| == |b| && forall i :: 0 <= i < |a| ==> ToLowerAscii(a[i]) == ToLowerAscii(b[i])
  }

  /** Decimal rendering of a non-negative `Long` (string templates, `toString()`). */
  function Decimal(n: nat): (r: string)
    ensures |r| >= 1
    ensures forall i :: 0 <= i < |r| ==> '0' <= r[i] <= '9'
    decreases n
  {
    if n < 10 then [Digit(n)] else Decimal(n / 10) + [Digit(n % 10)]
  }

  function Digit(d: nat): (c: char)
    requires d < 10
    ensures '0' <= c <= '9' && c as int - '0' as int == d
  {
    ('0' as int + d) as char
  }

  predicate IsAsciiDigit(c: char) { '0' as int <= c as int <= '9' as int }

  predicate AllDigits(t: string)
  {
    forall i :: 0 <= i < |t| ==> IsAsciiDigit(t[i])
  }

  /** The value of a string of ASCII digits. */
  function DigitsValue(t: string): (v: nat)
    requires AllDigits(t)
  {
    if t == [] then 0
    else
      assert IsAsciiDigit(t[|t| - 1]);
      DigitsValue(t[..|t| - 1]) * 10 + (t[|t| - 1] as int - '0' as int)
  }

  /** The digits of a number read back as that number. */
  lemma {:induction false} DigitsOfDecimal(n: nat)
    ensures AllDigits(Decimal(n))
    ensures DigitsValue(Decimal(n)) == n
    decreases n
  {
    var d := Decimal(n);
    if n >= 10 {
      DigitsOfDecimal(n / 10);
      assert d[..|d| - 1] == Decimal(n / 10);
    }
  }

  /** `a` is obtained from `b` by deleting elements (order preserved). */
  predicate IsSubsequence<T(==)>(a: seq<T>, b: seq<T>)
    decreases |b|
  {
    if a == [] then true
    else if b == [] then false
    else (a[0] == b[0] && IsSubsequence(a[1..], b[1..])) || IsSubsequence(a, b[1..])
  }

  /** Dropping the head of the larger sequence keeps a subsequence one. */
  lemma SubsequenceOfTail<T>(a: seq<T>, b: seq<T>)
    requires b != [] && IsSubsequence(a, b[1..])
    ensures IsSubsequence(a, b)
  {
  }

  /** Every element of a subsequence occurs in the larger sequence. */
  lemma {:induction false} SubsequenceMembers<T>(a: seq<T>, b: seq<T>, i: int)
    requires IsSubsequence(a, b) && 0 <= i < |a|
    ensures a[i] in b
    decreases |b|
  {
    if a[0] == b[0] && IsSubsequence(a[1..], b[1..]) {
      if i > 0 {
        SubsequenceMembers(a[1..], b[1..], i - 1);
      }
    } else {
      SubsequenceMembers(a, b[1..], i);
    }
  }

  /** No element occurs twice. */
  predicate NoDuplicates<T(==)>(s: seq<T>)
  {
    forall i, j :: 0 <= i < j < |s| ==> s[i] != s[j]
  }
}
