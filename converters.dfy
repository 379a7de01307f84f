/** The Room type converters: string lists stored as a bracketed,
    comma-separated text of quoted elements, and enums stored by name with
    a default for anything unreadable. */
module Converters {
  import opened Common
  import opened Entities

  /** Kotlin `split(",")`: every piece, empty ones included; never empty. */
  function Split(s: string): (r: seq<string>)
    ensures |r| >= 1
    ensures forall i :: 0 <= i < |r| ==> ',' !in r[i]
  {
    if s == [] then [""]
    else
      var rest := Split(s[1..]);
      if s[0] == ',' then [""] + rest
      else [[s[0]] + rest[0]] + rest[1..]
  }

  /** `joinToString(",")`. */
  function Join(pieces: seq<string>): string
  {
    if |pieces| == 0 then ""
    else if |pieces| == 1 then pieces[0]
    else pieces[0] + "," + Join(pieces[1..])
  }

  /** Splitting then joining gives the text back. */
  lemma {:induction false} JoinSplit(s: string)
    ensures Join(Split(s)) == s
  {
    if s != [] {
      var rest := Split(s[1..]);
      JoinSplit(s[1..]);
      if s[0] == ',' {
        assert Join([""] + rest) == "" + "," + Join(rest);
      } else {
        var r := Split(s);
        assert r[0] == [s[0]] + rest[0] && r[1..] == rest[1..];
        if |rest| == 1 {
          assert Join(r) == r[0];
        } else {
          assert Join(r) == r[0] + "," + Join(rest[1..]);
          assert Join(rest) == rest[0] + "," + Join(rest[1..]);
        }
      }
    }
  }

  /** Joining comma-free pieces then splitting gives the pieces back. */
  lemma {:induction false} SplitJoin(pieces: seq<string>)
    requires |pieces| >= 1
    requires forall i :: 0 <= i < |pieces| ==> ',' !in pieces[i]
    ensures Split(Join(pieces)) == pieces
  {
    if |pieces| == 1 {
      SplitCommaFree(pieces[0]);
    } else {
      SplitJoin(pieces[1..]);
      SplitPrefix(pieces[0], Join(pieces[1..]));
    }
  }

  lemma {:induction false} SplitCommaFree(x: string)
    requires ',' !in x
    ensures Split(x) == [x]
  {
    if x != [] {
      SplitCommaFree(x[1..]);
      assert [x[0]] + x[1..] == x;
    }
  }

  lemma {:induction false} SplitPrefix(x: string, rest: string)
    requires ',' !in x
    ensures Split(x + "," + rest) == [x] + Split(rest)
  {
    if x == [] {
      assert ("" + "," + rest)[1..] == rest;
    } else {
      SplitPrefix(x[1..], rest);
      assert (x + "," + rest)[1..] == x[1..] + "," + rest;
      assert [x[0]] + x[1..] == x;
    }
  }

  /** Kotlin `removeSurrounding(prefix, suffix)` for one-character affixes. */
  function RemoveSurrounding(s: string, prefix: char, suffix: char): (r: string)
    ensures |s| >= 2 && s[0] == prefix && s[|s| - 1] == suffix ==> r == s[1..|s| - 1]
    ensures !(|s| >= 2 && s[0] == prefix && s[|s| - 1] == suffix) ==> r == s
  {
    if |s| >= 2 && s[0] == prefix && s[|s| - 1] == suffix then s[1..|s| - 1] else s
  }

  function Quote(x: string): string
  {
    "\"" + x + "\""
  }

  function QuoteAll(list: seq<string>): (r: seq<string>)
    ensures |r| == |list|
    ensures forall i :: 0 <= i < |list| ==> r[i] == Quote(list[i])
  {
    if list == [] then [] else [Quote(list[0])] + QuoteAll(list[1..])
  }

  /** One stored piece read back: trimmed, then unquoted. */
  function CleanPiece(piece: string): string
  {
    RemoveSurrounding(Trim(piece), '"', '"')
  }

  /** Every piece read back, dropping those that end up empty. */
  function CleanPieces(pieces: seq<string>): (r: seq<string>)
    ensures forall i :: 0 <= i < |r| ==> r[i] != []
    ensures |r| <= |pieces|
  {
    if pieces == [] then []
    else
      var p := CleanPiece(pieces[0]);
      if p == [] then CleanPieces(pieces[1..]) else [p] + CleanPieces(pieces[1..])
  }

  /** `fromStringList`: null, "" and "[]" are the empty list. */
  function DecodeStringList(value: Option<string>): (r: seq<string>)
    ensures value.None? || value == Some("") || value == Some("[]") ==> r == []
    ensures forall i :: 0 <= i < |r| ==> r[i] != []
  {
    if value.None? || value.value == "" || value.value == "[]" then []
    else CleanPieces(Split(RemoveSurrounding(value.value, '[', ']')))
  }

  /** `fromListString`: null and the empty list are "[]". */
  function EncodeStringList(list: Option<seq<string>>): (r: string)
    ensures |r| >= 2 && r[0] == '[' && r[|r| - 1] == ']'
    ensures list.None? || list == Some([]) <==> r == "[]"
  {
    if list.None? || list.value == [] then "[]"
    else
      var body := Join(QuoteAll(list.value));
      QuotedJoinNonEmpty(list.value);
      "[" + body + "]"
  }

  lemma QuotedJoinNonEmpty(list: seq<string>)
    requires list != []
    ensures |Join(QuoteAll(list))| >= 2
  {
    if |list| == 1 {
      assert Join(QuoteAll(list)) == Quote(list[0]);
    } else {
      assert Join(QuoteAll(list)) == Quote(list[0]) + "," + Join(QuoteAll(list)[1..]);
    }
  }

  /** Quoted, trimmed-then-unquoted non-empty elements come back unchanged. */
  lemma CleanQuoted(list: seq<string>)
    requires forall i :: 0 <= i < |list| ==> list[i] != []
    ensures CleanPieces(QuoteAll(list)) == list
  {
    var quoted := QuoteAll(list);
    forall i | 0 <= i < |list|
      ensures CleanPiece(quoted[i]) == list[i]
    {
      CleanQuotedPiece(list[i]);
    }
    CleanPiecesPointwise(quoted, list);
  }

  lemma {:induction false} CleanPiecesPointwise(pieces: seq<string>, list: seq<string>)
    requires |pieces| == |list|
    requires forall i :: 0 <= i < |list| ==> list[i] != [] && CleanPiece(pieces[i]) == list[i]
    ensures CleanPieces(pieces) == list
  {
    if list != [] {
      CleanPiecesPointwise(pieces[1..], list[1..]);
      assert CleanPieces(pieces) == [list[0]] + CleanPieces(pieces[1..]);
    }
  }

  /** A quoted element reads back as the element. */
  lemma CleanQuotedPiece(x: string)
    ensures CleanPiece(Quote(x)) == x
  {
    TrimQuoted(x);
    UnquoteQuoted(x);
  }

  lemma TrimQuoted(x: string)
    ensures Trim(Quote(x)) == Quote(x)
  {
    QuoteShape(x);
    QuotedIsTrimmed(Quote(x));
  }

  lemma UnquoteQuoted(x: string)
    ensures RemoveSurrounding(Quote(x), '"', '"') == x
  {
    QuoteShape(x);
  }

  lemma QuoteShape(x: string)
    ensures var q := Quote(x); |q| >= 2 && q[0] == '"' && q[|q| - 1] == '"' && q[1..|q| - 1] == x
  {
  }

  lemma QuotedIsTrimmed(q: string)
    requires |q| >= 2 && q[0] == '"' && q[|q| - 1] == '"'
    ensures Trim(q) == q
  {
    TrimKeepsTrimmed(q);
  }

  /** A list survives storage when every element is non-empty and free of
      commas; quotes and inner spaces are kept. */
  lemma {:induction false} StringListRoundTrip(list: seq<string>)
    requires forall i :: 0 <= i < |list| ==> list[i] != [] && ',' !in list[i]
    ensures DecodeStringList(Some(EncodeStringList(Some(list)))) == list
  {
    if list != [] {
      var quoted := QuoteAll(list);
      forall i | 0 <= i < |quoted|
        ensures ',' !in quoted[i]
      {
        assert quoted[i] == "\"" + list[i] + "\"";
      }
      var encoded := EncodeStringList(Some(list));
      assert encoded == "[" + Join(quoted) + "]";
      assert encoded != "[]";
      assert RemoveSurrounding(encoded, '[', ']') == Join(quoted);
      SplitJoin(quoted);
      CleanQuoted(list);
    }
  }

  /** An element holding a comma comes back as two quoted halves. */
  lemma CommaElementSplits()
    ensures DecodeStringList(Some(EncodeStringList(Some(["a,b"])))) == ["\"a", "b\""]
  {
    var body := "\"a,b\"";
    EncodeCommaElement();
    assert RemoveSurrounding("[" + body + "]", '[', ']') == body;
    SplitQuotedCommaElement();
    CleanQuotedHalves();
  }

  lemma EncodeCommaElement()
    ensures EncodeStringList(Some(["a,b"])) == "[" + "\"a,b\"" + "]"
  {
    assert QuoteAll(["a,b"]) == [Quote("a,b")];
    assert Join([Quote("a,b")]) == Quote("a,b");
  }

  lemma SplitQuotedCommaElement()
    ensures Split("\"a,b\"") == ["\"a", "b\""]
  {
    var left, right := "\"a", "b\"";
    assert left + "," + right == "\"a,b\"";
    SplitPrefix(left, right);
    SplitCommaFree(right);
  }

  lemma CleanQuotedHalves()
    ensures CleanPieces(["\"a", "b\""]) == ["\"a", "b\""]
  {
    var left, right := "\"a", "b\"";
    CleanUnquotedPiece(left);
    CleanUnquotedPiece(right);
    CleanPiecesPair(left, right);
  }

  /** A piece with no surrounding whitespace and no surrounding quotes is read back as it is. */
  lemma CleanUnquotedPiece(x: string)
    requires x != [] && !IsWhitespace(x[0]) && !IsWhitespace(x[|x| - 1])
    requires !(|x| >= 2 && x[0] == '"' && x[|x| - 1] == '"')
    ensures CleanPiece(x) == x
  {
    TrimKeepsTrimmed(x);
  }

  lemma CleanPiecesPair(a: string, b: string)
    requires CleanPiece(a) == a && CleanPiece(b) == b && a != [] && b != []
    ensures CleanPieces([a, b]) == [a, b]
  {
    assert [a, b][1..] == [b];
    assert [b][1..] == [];
  }

  /** An empty element is lost. */
  lemma EmptyElementDropped()
    ensures DecodeStringList(Some(EncodeStringList(Some([""])))) == []
  {
    var q := Quote("");
    assert q == "\"\"";
    assert QuoteAll([""]) == [q];
    assert EncodeStringList(Some([""])) == "[" + q + "]";
    assert RemoveSurrounding("[" + q + "]", '[', ']') == q;
    SplitCommaFree(q);
    CleanQuotedPiece("");
  }

  // ---------------------------------------------------------------------
  // Enums by name

  function MealTypeName(t: MealType): string
  {
    match t
    case Breakfast => "BREAKFAST"
    case Lunch => "LUNCH"
    case Dinner => "DINNER"
    case Snack => "SNACK"
  }

  /** `fromMealTypeString`: the exact (case-sensitive) constant name, else
      BREAKFAST, also for null and "". */
  function ParseMealType(value: Option<string>): (r: MealType)
    ensures value.Some? && (exists t :: MealTypeName(t) == value.value) ==> MealTypeName(r) == value.value
    ensures value.None? || (forall t :: MealTypeName(t) != value.value) ==> r == Breakfast
  {
    if value == Some("BREAKFAST") then Breakfast
    else if value == Some("LUNCH") then Lunch
    else if value == Some("DINNER") then Dinner
    else if value == Some("SNACK") then Snack
    else Breakfast
  }

  /** `fromMealTypeToString`: null is stored as BREAKFAST. */
  function EncodeMealType(t: Option<MealType>): (r: string)
    ensures t.Some? ==> r == MealTypeName(t.value)
    ensures t.None? ==> r == "BREAKFAST"
  {
    MealTypeName(if t.Some? then t.value else Breakfast)
  }

  lemma MealTypeRoundTrip(t: MealType)
    ensures ParseMealType(Some(EncodeMealType(Some(t)))) == t
  {
  }

  lemma MealTypeFallback()
    ensures ParseMealType(Some("lunch")) == Breakfast
    ensures ParseMealType(Some("")) == Breakfast
    ensures ParseMealType(None) == Breakfast
  {
    assert MealTypeName(Lunch) != "lunch" by { assert "LUNCH"[0] != "lunch"[0]; }
  }

  function GoalName(g: NutritionGoal): string
  {
    match g
    case WeightLoss => "WEIGHT_LOSS"
    case WeightGain => "WEIGHT_GAIN"
    case Maintenance => "MAINTENANCE"
    case MuscleGain => "MUSCLE_GAIN"
  }

  /** `fromNutritionGoalString`: the exact constant name, else MAINTENANCE. */
  function ParseGoal(value: Option<string>): (r: NutritionGoal)
    ensures value.Some? && (exists g :: GoalName(g) == value.value) ==> GoalName(r) == value.value
    ensures value.None? || (forall g :: GoalName(g) != value.value) ==> r == Maintenance
  {
    if value == Some("WEIGHT_LOSS") then WeightLoss
    else if value == Some("WEIGHT_GAIN") then WeightGain
    else if value == Some("MAINTENANCE") then Maintenance
    else if value == Some("MUSCLE_GAIN") then MuscleGain
    else Maintenance
  }

  /** `fromNutritionGoalToString`: null is stored as MAINTENANCE. */
  function EncodeGoal(g: Option<NutritionGoal>): (r: string)
    ensures g.Some? ==> r == GoalName(g.value)
    ensures g.None? ==> r == "MAINTENANCE"
  {
    GoalName(if g.Some? then g.value else Maintenance)
  }

  lemma GoalRoundTrip(g: NutritionGoal)
    ensures ParseGoal(Some(EncodeGoal(Some(g)))) == g
  {
  }
}
