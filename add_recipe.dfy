/** The recipe form: validation of the required fields and the parsing of
    its text fields into the arguments of a save (numbers with defaults, a
    comma-separated tag list). */
module AddRecipeForm {
  import opened Common
  import opened Converters

  /** The error labels of the two required fields. */
  datatype FormErrors = FormErrors(nameError: Option<string>, instructionsError: Option<string>)

  datatype Validation = Validation(ok: bool, errors: FormErrors)

  const NameRequired: string := "Le nom est requis"
  const InstructionsRequired: string := "Les instructions sont requises"

  /** `isNullOrBlank`. */
  predicate IsNullOrBlank(text: Option<string>)
  {
    text.None? || IsBlank(text.value)
  }

  /** `validateInputs`: the name is checked first and a blank name returns
      at once, leaving the instructions' label as it was. */
  function ValidateInputs(name: Option<string>, instructions: Option<string>, shown: FormErrors): (r: Validation)
    ensures IsNullOrBlank(name) ==>
              !r.ok && r.errors == shown.(nameError := Some(NameRequired))
    ensures !IsNullOrBlank(name) ==>
              (r.ok <==> !IsNullOrBlank(instructions)) &&
              r.errors.nameError.None? &&
              r.errors.instructionsError == (if r.ok then None else Some(InstructionsRequired))
  {
    if IsNullOrBlank(name) then
      Validation(false, shown.(nameError := Some(NameRequired)))
    else if IsNullOrBlank(instructions) then
      Validation(false, FormErrors(None, Some(InstructionsRequired)))
    else
      Validation(true, FormErrors(None, None))
  }

  /** Kotlin `String.toIntOrNull()` in base 10: an optional sign, then at
      least one digit, and a value that fits a 32-bit Int. */
  function ParseInt(s: string): (r: Option<int>)
    ensures r.Some? ==> MinInt <= r.value <= MaxInt
    ensures s == [] || s == "-" || s == "+" ==> r.None?
  {
    var signed := |s| >= 1 && (s[0] == '-' || s[0] == '+');
    var digits := if signed then s[1..] else s;
    if digits == [] || !AllDigits(digits) then None
    else
      var n: int := if s[0] == '-' then -(DigitsValue(digits) as int) else DigitsValue(digits);
      if MinInt <= n <= MaxInt then Some(n) else None
  }

  /** `toIntOrNull() ?: default`. */
  function IntOrDefault(text: string, default: int): (r: int)
    ensures ParseInt(text).Some? ==> r == ParseInt(text).value
    ensures ParseInt(text).None? ==> r == default
  {
    match ParseInt(text)
    case Some(n) => n
    case None => default
  }

  /** Neither starts nor ends with whitespace: what `trim()` leaves. */
  predicate IsTrimmed(s: string)
  {
    s == [] || (!IsWhitespace(s[0]) && !IsWhitespace(s[|s| - 1]))
  }

  /** `split(",").map { it.trim() }.filter { it.isNotEmpty() }`. */
  function TrimmedTags(pieces: seq<string>): (r: seq<string>)
    ensures forall i :: 0 <= i < |r| ==> r[i] != [] && IsTrimmed(r[i])
  {
    if pieces == [] then []
    else
      var t := Trim(pieces[0]);
      if t == [] then TrimmedTags(pieces[1..]) else [t] + TrimmedTags(pieces[1..])
  }

  /** Trimming comma-free pieces leaves comma-free tags. */
  lemma {:induction false} TrimmedTagsCommaFree(pieces: seq<string>)
    requires forall i :: 0 <= i < |pieces| ==> ',' !in pieces[i]
    ensures forall i :: 0 <= i < |TrimmedTags(pieces)| ==> ',' !in TrimmedTags(pieces)[i]
  {
    if pieces != [] {
      TrimKeepsChars(pieces[0]);
      TrimmedTagsCommaFree(pieces[1..]);
    }
  }

  function ParseTags(text: string): (r: seq<string>)
    ensures forall i :: 0 <= i < |r| ==> r[i] != [] && ',' !in r[i] && IsTrimmed(r[i])
  {
    TrimmedTagsCommaFree(Split(text));
    TrimmedTags(Split(text))
  }

  /** The arguments a save passes on. */
  datatype RecipeForm = RecipeForm(name: string, description: string, instructions: string,
                                   prepTime: int, cookTime: int, servings: int, tags: seq<string>)

  /** `saveRecipe` of the form: unparseable times become 0 and unparseable
      servings 1; a parseable value, negative or not, is kept. */
  function ReadForm(name: string, description: string, instructions: string,
                    prepText: string, cookText: string, servingsText: string, tagsText: string): (r: RecipeForm)
    ensures r.name == name && r.description == description && r.instructions == instructions
    ensures r.prepTime == IntOrDefault(prepText, 0) && r.cookTime == IntOrDefault(cookText, 0)
    ensures r.servings == IntOrDefault(servingsText, 1)
    ensures r.tags == ParseTags(tagsText)
  {
    RecipeForm(name, description, instructions, IntOrDefault(prepText, 0), IntOrDefault(cookText, 0),
               IntOrDefault(servingsText, 1), ParseTags(tagsText))
  }

  /** Printing a non-negative Int and parsing it back gives it again. */
  lemma ParseDecimal(n: nat)
    requires n <= MaxInt
    ensures ParseInt(Decimal(n)) == Some(n)
  {
    DigitsOfDecimal(n);
  }

  /** A negative Int, the smallest included, parses from its sign and digits. */
  lemma ParseNegativeDecimal(n: nat)
    requires 0 < n <= -MinInt
    ensures ParseInt("-" + Decimal(n)) == Some(-(n as int))
  {
    DigitsOfDecimal(n);
    assert ("-" + Decimal(n))[1..] == Decimal(n);
  }

  /** A value one past the Int range is rejected, so the default applies. */
  lemma OverflowFallsBack()
    ensures IntOrDefault(Decimal(MaxInt + 1), 1) == 1
    ensures IntOrDefault(Decimal(MaxInt), 1) == MaxInt
  {
    ParseDecimal(MaxInt);
    DigitsOfDecimal(MaxInt + 1);
    var d := Decimal(MaxInt + 1);
    assert IsAsciiDigit(d[0]);
  }

  /** Spaces around a number make it unparseable. */
  lemma PaddedNumberFallsBack()
    ensures IntOrDefault(" 5", 0) == 0
  {
    var s := " 5";
    assert s[0] == ' ' && !IsAsciiDigit(s[0]);
    assert !(s[0] == '-' || s[0] == '+');
    assert !AllDigits(s);
  }

  /** Tags survive the string-list column they are stored in. */
  lemma TagsRoundTrip(text: string)
    ensures DecodeStringList(Some(EncodeStringList(Some(ParseTags(text))))) == ParseTags(text)
  {
    StringListRoundTrip(ParseTags(text));
  }

  /** Typing back the tags joined by commas gives the same tags. */
  lemma {:induction false} ParseJoinedTags(tags: seq<string>)
    requires forall i :: 0 <= i < |tags| ==> tags[i] != [] && ',' !in tags[i] && IsTrimmed(tags[i])
    ensures ParseTags(Join(tags)) == tags
  {
    if tags == [] {
      assert Join(tags) == "";
      assert Split("") == [""];
      assert Trim("") == [];
      assert TrimmedTags([""]) == [];
    } else {
      SplitJoin(tags);
      assert Split(Join(tags)) == tags;
      TrimmedOfTrimmed(tags);
      assert ParseTags(Join(tags)) == TrimmedTags(tags);
    }
  }

  lemma {:induction false} TrimmedOfTrimmed(tags: seq<string>)
    requires forall i :: 0 <= i < |tags| ==> tags[i] != [] && IsTrimmed(tags[i])
    ensures TrimmedTags(tags) == tags
  {
    if tags != [] {
      TrimKeepsTrimmed(tags[0]);
      TrimmedOfTrimmed(tags[1..]);
    }
  }
}
