/** The two parameter categories, and how free text is mapped onto them (`ParameterTypeHelper`). */
module ParameterTypes {
  import opened Wrappers
  import opened Text

  const Air: string := "air"
  const Water: string := "water"

  /** A category in its stored form: exactly "air" or "water". */
  predicate IsCategory(t: string) {
    t == Air || t == Water
  }

  /**
   * `ParameterTypeHelper.Normalize`: null or blank text is "water"; otherwise the trimmed,
   * lower-cased text if that is a category, and "water" for anything else.
   */
  function Normalize(input: Option<string>): (r: string)
    ensures IsCategory(r)
    ensures IsNullOrWhiteSpace(input) ==> r == Water
    ensures !IsNullOrWhiteSpace(input) && IsCategory(ToLower(Trim(input.value))) ==> r == ToLower(Trim(input.value))
    ensures !IsNullOrWhiteSpace(input) && !IsCategory(ToLower(Trim(input.value))) ==> r == Water
  {
    if IsNullOrWhiteSpace(input) then Water
    else
      var normalized := ToLower(Trim(input.value));
      if normalized == Air || normalized == Water then normalized else Water
  }

  /** `ParameterTypeHelper.IsValid`: non-blank, and "air" or "water" once trimmed, ignoring case. */
  predicate IsValid(input: Option<string>) {
    !IsNullOrWhiteSpace(input)
    && (EqualsIgnoreCase(Trim(input.value), Air) || EqualsIgnoreCase(Trim(input.value), Water))
  }

  lemma LowerCategory(t: string)
    requires IsCategory(t)
    ensures ToLower(t) == t
  {
  }

  /** A stored category normalises to itself. */
  lemma NormalizeCategory(t: string)
    requires IsCategory(t)
    ensures Normalize(Some(t)) == t
  {
    assert t[0] == 'a' || t[0] == 'w';
    TrimTrimmed(t);
    LowerCategory(t);
  }

  /** Normalising twice is normalising once. */
  lemma NormalizeIdempotent(input: Option<string>)
    ensures Normalize(Some(Normalize(input))) == Normalize(input)
  {
    NormalizeCategory(Normalize(input));
  }

  /**
   * `IsValid` holds exactly when the trimmed, lower-cased text is a category, and then
   * `Normalize` returns that text; every other input normalises to "water".
   */
  lemma IsValidExactlyCategory(input: Option<string>)
    ensures IsValid(input) <==> input.Some? && IsCategory(ToLower(Trim(input.value)))
    ensures IsValid(input) ==> Normalize(input) == ToLower(Trim(input.value))
    ensures !IsValid(input) ==> Normalize(input) == Water
  {
    if input.Some? {
      var t := ToLower(Trim(input.value));
      LowerCategory(Air);
      LowerCategory(Water);
      TrimBlank(input.value);
      if IsBlank(input.value) {
        assert t == [];
      }
    }
  }

  /** Surrounding white space and letter case do not matter: " AIR " is "air". */
  lemma NormalizePaddedUpper()
    ensures Normalize(Some(" AIR ")) == Air
  {
    var s := " AIR ";
    assert TrimStartIndex(s, 1) == 1;
    assert TrimStartIndex(s, 0) == 1;
    assert TrimEndIndex(s, 1, 4) == 4;
    assert TrimEndIndex(s, 1, 5) == 4;
    assert Trim(s) == "AIR";
    assert ToLower("AIR") == Air;
  }

  /** A capitalised category is accepted, and a word that is no category falls back to "water". */
  lemma NormalizeWords()
    ensures Normalize(Some("Water")) == Water
    ensures Normalize(Some("soil")) == Water
  {
    TrimTrimmed("Water");
    assert ToLower("Water") == Water;
    TrimTrimmed("soil");
    assert ToLower("soil")[0] == 's';
  }

  /** No text and blank text both mean "water". */
  lemma NormalizeBlank()
    ensures Normalize(None) == Water && Normalize(Some("   ")) == Water
  {
    assert IsBlank("   ");
  }
}
