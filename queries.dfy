/** SQL semantics shared by the DAOs: the binary string order of
    `ORDER BY name`, selecting the rows of a table that satisfy a `WHERE`
    clause (with or without `ORDER BY`), and SQLite's `LIKE`. */
module Queries {
  import opened Common

  // ---------------------------------------------------------------------
  // Orders

  /** SQLite's BINARY collation: code-point lexicographic order. */
  predicate StrLessEq(a: string, b: string)
    decreases |a|
  {
    a == [] || (b != [] && (a[0] < b[0] || (a[0] == b[0] && StrLessEq(a[1..], b[1..]))))
  }

  lemma {:induction false} StrLessEqTotal(a: string, b: string)
    ensures StrLessEq(a, b) || StrLessEq(b, a)
    decreases |a|
  {
    if a != [] && b != [] && a[0] == b[0] {
      StrLessEqTotal(a[1..], b[1..]);
    }
  }

  lemma {:induction false} StrLessEqTransitive(a: string, b: string, c: string)
    requires StrLessEq(a, b) && StrLessEq(b, c)
    ensures StrLessEq(a, c)
    decreases |a|
  {
    if a != [] && a[0] == b[0] && b[0] == c[0] {
      StrLessEqTransitive(a[1..], b[1..], c[1..]);
    }
  }

  /** What `ORDER BY` needs of a comparison: any two rows compare, and
      comparisons chain. */
  ghost predicate TotalPreorder<R(!new)>(le: (R, R) -> bool)
  {
    (forall a, b :: le(a, b) || le(b, a)) &&
    (forall a, b, c :: le(a, b) && le(b, c) ==> le(a, c))
  }

  predicate SortedBy<R>(s: seq<R>, le: (R, R) -> bool)
  {
    forall i, j :: 0 <= i < j < |s| ==> le(s[i], s[j])
  }

  /** Inserting `x` after every row that sorts strictly before it. */
  function InsertSorted<R(==)>(x: R, s: seq<R>, le: (R, R) -> bool): (r: seq<R>)
    ensures multiset(r) == multiset(s) + multiset{x}
  {
    if s == [] then [x]
    else if le(x, s[0]) then [x] + s
    else
      assert s == [s[0]] + s[1..];
      [s[0]] + InsertSorted(x, s[1..], le)
  }

  lemma {:induction false} InsertSortedKeepsOrder<R(!new)>(x: R, s: seq<R>, le: (R, R) -> bool)
    requires TotalPreorder(le) && SortedBy(s, le)
    ensures SortedBy(InsertSorted(x, s, le), le)
  {
    var r := InsertSorted(x, s, le);
    if s == [] {
    } else if le(x, s[0]) {
      assert forall j :: 1 <= j < |r| ==> r[j] == s[j - 1];
      assert forall j :: 1 <= j < |r| ==> le(s[0], r[j]);
    } else {
      var rest := InsertSorted(x, s[1..], le);
      InsertSortedKeepsOrder(x, s[1..], le);
      assert le(s[0], x);
      assert forall y :: y in s[1..] ==> le(s[0], y);
      assert forall j :: 1 <= j < |r| ==> r[j] == rest[j - 1];
      InsertSortedMembers(x, s[1..], le);
    }
  }

  lemma InsertSortedMembers<R>(x: R, s: seq<R>, le: (R, R) -> bool)
    ensures forall y :: y in InsertSorted(x, s, le) <==> y == x || y in s
  {
    var r := InsertSorted(x, s, le);
    assert forall y :: y in r <==> y in multiset(r);
    assert forall y :: y in s <==> y in multiset(s);
  }

  lemma InsertSortedKeepsDistinct<R>(x: R, s: seq<R>, le: (R, R) -> bool)
    requires NoDuplicates(s) && x !in s
    ensures NoDuplicates(InsertSorted(x, s, le))
  {
    var r := InsertSorted(x, s, le);
    assert forall y :: multiset(r)[y] <= 1 by {
      NoDuplicatesCount(s);
    }
    CountNoDuplicates(r);
  }

  lemma {:induction false} NoDuplicatesCount<R>(s: seq<R>)
    requires NoDuplicates(s)
    ensures forall y :: multiset(s)[y] <= 1
  {
    if s != [] {
      var t := s[..|s| - 1];
      assert s == t + [s[|s| - 1]];
      NoDuplicatesCount(t);
      assert s[|s| - 1] !in t;
    }
  }

  lemma {:induction false} CountNoDuplicates<R>(s: seq<R>)
    requires forall y :: multiset(s)[y] <= 1
    ensures NoDuplicates(s)
  {
    if s != [] {
      var t := s[..|s| - 1];
      assert s == t + [s[|s| - 1]];
      assert forall y :: multiset(t)[y] <= multiset(s)[y];
      CountNoDuplicates(t);
      assert multiset(t)[s[|s| - 1]] == 0;
      assert forall i :: 0 <= i < |t| ==> t[i] in multiset(t);
    }
  }

  // ---------------------------------------------------------------------
  // SELECT ... WHERE ... [ORDER BY ...]

  /** `SELECT * FROM rows WHERE keep ORDER BY le`: every kept row exactly
      once, in order; rows that tie come in no particular order. */
  method SelectSorted<K, R(==,!new)>(rows: map<K, R>, keep: R -> bool, le: (R, R) -> bool) returns (r: seq<R>)
    requires TotalPreorder(le)
    ensures forall x :: x in r <==> x in rows.Values && keep(x)
    ensures NoDuplicates(r)
    ensures SortedBy(r, le)
  {
    var remaining := rows.Values;
    r := [];
    while remaining != {}
      invariant remaining <= rows.Values
      invariant forall x :: x in r <==> x in rows.Values - remaining && keep(x)
      invariant NoDuplicates(r)
      invariant SortedBy(r, le)
      decreases |remaining|
    {
      var x :| x in remaining;
      remaining := remaining - {x};
      if keep(x) {
        InsertSortedKeepsOrder(x, r, le);
        InsertSortedKeepsDistinct(x, r, le);
        InsertSortedMembers(x, r, le);
        r := InsertSorted(x, r, le);
      }
    }
  }

  /** `SELECT * FROM rows WHERE keep` without `ORDER BY`: every kept row
      exactly once, in an order the model leaves open. */
  method Select<K, R(==)>(rows: map<K, R>, keep: R -> bool) returns (r: seq<R>)
    ensures forall x :: x in r <==> x in rows.Values && keep(x)
    ensures NoDuplicates(r)
  {
    var remaining := rows.Values;
    r := [];
    while remaining != {}
      invariant remaining <= rows.Values
      invariant forall x :: x in r <==> x in rows.Values - remaining && keep(x)
      invariant NoDuplicates(r)
      decreases |remaining|
    {
      var x :| x in remaining;
      remaining := remaining - {x};
      if keep(x) {
        r := r + [x];
      }
    }
  }

  // ---------------------------------------------------------------------
  // INSERT OR REPLACE of a list of rows

  /** The last row of `rows` whose key is `k`, if any. */
  function LastWithKey<K(==), R>(rows: seq<R>, k: K, key: R -> K): (r: Option<R>)
    ensures r.Some? ==> r.value in rows && key(r.value) == k
    ensures r.None? <==> forall i :: 0 <= i < |rows| ==> key(rows[i]) != k
  {
    if rows == [] then None
    else if key(rows[|rows| - 1]) == k then Some(rows[|rows| - 1])
    else
      var r := LastWithKey(rows[..|rows| - 1], k, key);
      assert forall i :: 0 <= i < |rows| - 1 ==> rows[i] == rows[..|rows| - 1][i];
      r
  }

  /** `@Insert(onConflict = REPLACE)` of a list, row after row. */
  function UpsertAll<K(==), R>(table: map<K, R>, rows: seq<R>, key: R -> K): (r: map<K, R>)
  {
    if rows == [] then table
    else
      var last := rows[|rows| - 1];
      UpsertAll(table, rows[..|rows| - 1], key)[key(last) := last]
  }

  /** After the bulk upsert a key holds the last listed row with that key,
      or its old row when none is listed. */
  lemma {:induction false} UpsertAllLookup<K, R>(table: map<K, R>, rows: seq<R>, key: R -> K)
    ensures var r := UpsertAll(table, rows, key);
      (forall k :: k in r <==> k in table || LastWithKey(rows, k, key).Some?) &&
      (forall k :: k in r ==> r[k] == if LastWithKey(rows, k, key).Some? then LastWithKey(rows, k, key).value else table[k])
  {
    if rows != [] {
      UpsertAllLookup(table, rows[..|rows| - 1], key);
    }
  }

  // ---------------------------------------------------------------------
  // LIKE

  /** SQLite `s LIKE p` without ESCAPE: `%` matches any run, `_` any one
      character, other characters match up to ASCII case. */
  predicate Like(s: string, p: string)
    decreases |s| + |p|
  {
    if p == [] then s == []
    else if p[0] == '%' then Like(s, p[1..]) || (s != [] && Like(s[1..], p))
    else s != [] && (p[0] == '_' || ToLowerAscii(s[0]) == ToLowerAscii(p[0])) && Like(s[1..], p[1..])
  }

  predicate HasWildcard(q: string)
  {
    '%' in q || '_' in q
  }

  /** `q` occurs in `s` at position `i`, up to ASCII case. */
  predicate MatchesAt(s: string, q: string, i: int)
  {
    0 <= i <= |s| - |q| && EqualsIgnoreCase(s[i..i + |q|], q)
  }

  /** `s` contains `q` somewhere, up to ASCII case. */
  ghost predicate ContainsIgnoreCase(s: string, q: string)
  {
    exists i :: MatchesAt(s, q, i)
  }

  /** `name LIKE '%' || q || '%'` with a wildcard-free `q` is exactly a
      case-insensitive substring test. */
  lemma {:induction false} LikeContains(s: string, q: string)
    requires !HasWildcard(q)
    ensures Like(s, "%" + q + "%") <==> ContainsIgnoreCase(s, q)
  {
    LikeLeadingPercent(s, q + "%");
    assert "%" + q + "%" == "%" + (q + "%");
    if Like(s, "%" + q + "%") {
      var i :| LikeFrom(s, q + "%", i);
      LikePrefix(s[i..], q);
      assert s[i..][..|q|] == s[i..i + |q|];
      assert MatchesAt(s, q, i);
    }
    if ContainsIgnoreCase(s, q) {
      var i :| MatchesAt(s, q, i);
      LikePrefix(s[i..], q);
      assert s[i..][..|q|] == s[i..i + |q|];
      assert LikeFrom(s, q + "%", i);
    }
  }

  /** The rest of `s` from position `i` matches `p`. */
  predicate LikeFrom(s: string, p: string, i: int)
  {
    0 <= i <= |s| && Like(s[i..], p)
  }

  /** `%` alone matches everything. */
  lemma {:induction false} LikePercent(s: string)
    ensures Like(s, "%")
    decreases |s|
  {
    if s != [] {
      LikePercent(s[1..]);
    }
  }

  /** A leading `%` lets the rest of the pattern start at any position. */
  lemma {:induction false} LikeLeadingPercent(s: string, p: string)
    ensures Like(s, "%" + p) <==> exists i :: LikeFrom(s, p, i)
    decreases |s|
  {
    var pp := "%" + p;
    assert pp[0] == '%' && pp[1..] == p;
    assert s[0..] == s;
    assert Like(s, pp) == (Like(s, p) || (s != [] && Like(s[1..], pp)));
    if Like(s, p) {
      assert LikeFrom(s, p, 0);
    }
    if s == [] {
      if exists i :: LikeFrom(s, p, i) {
        var i :| LikeFrom(s, p, i);
        assert i == 0 && s[i..] == s;
      }
    } else {
      LikeLeadingPercent(s[1..], p);
      if exists i :: LikeFrom(s, p, i) {
        var i :| LikeFrom(s, p, i);
        if i > 0 {
          assert s[1..][i - 1..] == s[i..];
          assert LikeFrom(s[1..], p, i - 1);
        }
      }
      if Like(s[1..], pp) {
        var i :| LikeFrom(s[1..], p, i);
        assert s[1..][i..] == s[i + 1..];
        assert LikeFrom(s, p, i + 1);
      }
    }
  }

  /** A wildcard-free pattern followed by `%` matches exactly the strings
      starting with it, up to ASCII case. */
  lemma {:induction false} LikePrefix(s: string, q: string)
    requires !HasWildcard(q)
    ensures Like(s, q + "%") <==> |q| <= |s| && EqualsIgnoreCase(s[..|q|], q)
    decreases |q|
  {
    if q == [] {
      assert q + "%" == "%";
      LikePercent(s);
    } else {
      assert (q + "%")[1..] == q[1..] + "%";
      assert (q + "%")[0] == q[0];
      if s != [] {
        LikePrefix(s[1..], q[1..]);
        if |q| <= |s| {
          assert s[1..][..|q| - 1] == s[..|q|][1..];
          assert EqualsIgnoreCase(s[..|q|], q) <==>
            ToLowerAscii(s[0]) == ToLowerAscii(q[0]) && EqualsIgnoreCase(s[..|q|][1..], q[1..]);
        }
      }
    }
  }

  /** The query's own `%` and `_` act as wildcards: "_" finds every
      non-empty name. */
  lemma UnderscoreMatchesAnyNonEmpty(s: string)
    requires s != []
    ensures Like(s, "%" + "_" + "%")
  {
    assert ("%" + "_" + "%")[1..] == "_%";
    assert "_%"[1..] == "%";
    LikePercent(s[1..]);
    assert Like(s, "_%");
  }
}
