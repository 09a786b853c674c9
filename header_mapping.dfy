/**
 * Resolving free-text column titles to the nine canonical import fields
 * (`NormalizeImportHeader`) and building the field-to-column map of a header row
 * (`BuildImportHeaderMap`).
 */
module HeaderMapping {
  import opened Wrappers
  import opened Text
  import opened Cells

  /** The canonical keys of the header map. */
  datatype Field =
    | EmissionSourceId
    | ParameterCode
    | MeasurementDate
    | EntryDate
    | Value
    | Unit
    | Remark
    | IsApproved
    | ApprovedAt

  /** Every field, each once. */
  const Fields: seq<Field> :=
    [EmissionSourceId, ParameterCode, MeasurementDate, EntryDate, Value, Unit, Remark, IsApproved, ApprovedAt]

  /** Where a field sits in `Fields`. */
  function FieldIndex(f: Field): (k: nat)
    ensures k < |Fields| && Fields[k] == f
  {
    match f
    case EmissionSourceId => 0
    case ParameterCode => 1
    case MeasurementDate => 2
    case EntryDate => 3
    case Value => 4
    case Unit => 5
    case Remark => 6
    case IsApproved => 7
    case ApprovedAt => 8
  }

  /** Field name -> column number; the last column with a given field wins. */
  type HeaderMap = map<Field, int>

  /** The `switch` of `NormalizeImportHeader`: each sanitised title it knows and the field it resolves to. */
  function SynonymTable(): map<string, Field> {
    map[
      "emissionsource" := EmissionSourceId, "emissionsourceid" := EmissionSourceId,
      "sourceid" := EmissionSourceId, "source" := EmissionSourceId,
      "parameter" := ParameterCode, "parametercode" := ParameterCode,
      "measurement" := MeasurementDate, "measurementdate" := MeasurementDate,
      "measurementdatetime" := MeasurementDate,
      "entrydate" := EntryDate, "entrydatetime" := EntryDate,
      "value" := Value,
      "unit" := Unit,
      "remark" := Remark, "remarks" := Remark, "note" := Remark, "notes" := Remark,
      "isapproved" := IsApproved, "approved" := IsApproved, "approval" := IsApproved,
      "approvedat" := ApprovedAt, "approvaldate" := ApprovedAt, "approveddate" := ApprovedAt]
  }

  /** The sanitised titles that resolve to a field. */
  function Synonyms(f: Field): set<string> {
    set s | s in SynonymTable() && SynonymTable()[s] == f
  }

  /** The field a sanitised title resolves to: at most one, the one whose synonyms hold it. */
  function SynonymOf(s: string): (r: Option<Field>)
    ensures forall f :: r == Some(f) <==> s in Synonyms(f)
  {
    if s in SynonymTable() then Some(SynonymTable()[s]) else None
  }

  /** Only letters and digits, lower-cased. */
  function Sanitize(s: string): (r: string)
    ensures forall i :: 0 <= i < |r| ==> IsLetterOrDigit(r[i]) && !('A' <= r[i] <= 'Z')
  {
    ToLower(LettersAndDigits(s))
  }

  lemma {:induction false} SanitizeBlank(s: string)
    requires IsBlank(s)
    ensures LettersAndDigits(s) == []
  {
    if s != [] {
      assert IsWhiteSpace(s[0]);
      SanitizeBlank(s[1..]);
    }
  }

  /**
   * `NormalizeImportHeader`: a title resolves to a field exactly when its letters and digits,
   * lower-cased, are one of that field's synonyms; null, blank and unknown titles resolve to nothing.
   */
  function NormalizeImportHeader(input: Option<string>): (r: Option<Field>)
    ensures input.None? ==> r.None?
    ensures input.Some? ==> forall f :: r == Some(f) <==> Sanitize(input.value) in Synonyms(f)
  {
    if IsNullOrWhiteSpace(input) then
      SanitizeBlank(if input.Some? then input.value else "");
      None
    else SynonymOf(Sanitize(input.value))
  }

  /** A title resolves as its sanitised form does; blank titles sanitise to the empty string, which is no synonym. */
  lemma NormalizeBySanitizing(title: string)
    ensures NormalizeImportHeader(Some(title)) == SynonymOf(Sanitize(title))
  {
    if IsNullOrWhiteSpace(Some(title)) {
      SanitizeBlank(title);
      assert Sanitize(title) == [];
    }
  }

  /** Titles equal up to case sanitise equally. */
  lemma SanitizeIgnoresCase(a: string, b: string)
    requires EqualsIgnoreCase(a, b)
    ensures Sanitize(a) == Sanitize(b)
  {
    LettersAndDigitsOfLower(a);
    LettersAndDigitsOfLower(b);
  }

  /** A space, a punctuation mark or any other non-alphanumeric character makes no difference to the sanitised title. */
  lemma SanitizeIgnoresSeparators(a: string, c: char, b: string)
    requires !IsLetterOrDigit(c)
    ensures Sanitize(a + [c] + b) == Sanitize(a + b)
  {
    LettersAndDigitsDrop(a, c, b);
  }

  /** Titles with the same sanitised form resolve identically. */
  lemma HeaderVariantsAgree(a: string, b: string)
    requires Sanitize(a) == Sanitize(b)
    ensures NormalizeImportHeader(Some(a)) == NormalizeImportHeader(Some(b))
  {
    NormalizeBySanitizing(a);
    NormalizeBySanitizing(b);
  }

  /** Titles that differ only in letter case resolve to the same field ("PARAMETER CODE", "parameter code"). */
  lemma HeaderIgnoresCase(a: string, b: string)
    requires EqualsIgnoreCase(a, b)
    ensures NormalizeImportHeader(Some(a)) == NormalizeImportHeader(Some(b))
  {
    SanitizeIgnoresCase(a, b);
    HeaderVariantsAgree(a, b);
  }

  /**
   * Inserting a space or a punctuation mark anywhere in a title does not change the field it
   * resolves to ("Entry Date", "entry-date", "EntryDate").
   */
  lemma HeaderIgnoresSeparators(a: string, c: char, b: string)
    requires !IsLetterOrDigit(c)
    ensures NormalizeImportHeader(Some(a + [c] + b)) == NormalizeImportHeader(Some(a + b))
  {
    SanitizeIgnoresSeparators(a, c, b);
    HeaderVariantsAgree(a + [c] + b, a + b);
  }

  /** A title as a user types it: "Source ID" resolves to the emission source column. */
  lemma SpacedTitleResolves()
    ensures NormalizeImportHeader(Some("Source ID")) == Some(EmissionSourceId)
  {
    assert "Source" + [' '] + "ID" == "Source ID";
    HeaderIgnoresSeparators("Source", ' ', "ID");
    assert "Source" + "ID" == "SourceID";
    SanitizeSourceTitle();
    NormalizeBySanitizing("SourceID");
    assert SynonymTable()["sourceid"] == EmissionSourceId;
  }

  lemma SanitizeSourceTitle()
    ensures Sanitize("SourceID") == "sourceid"
  {
    SourceTitleAlphanumeric();
    LowerSourceTitle();
  }

  lemma SourceTitleAlphanumeric()
    ensures LettersAndDigits("SourceID") == "SourceID"
  {
    var t := "SourceID";
    assert forall i :: 0 <= i < |t| ==> IsLetterOrDigit(t[i]) by {
      assert t[0] == 'S' && t[1] == 'o' && t[2] == 'u' && t[3] == 'r';
      assert t[4] == 'c' && t[5] == 'e' && t[6] == 'I' && t[7] == 'D';
    }
  }

  lemma LowerSourceTitle()
    ensures ToLower("SourceID") == "sourceid"
  {
    var t := "SourceID";
    assert ToLower(t)[0] == 's' && ToLower(t)[6] == 'i' && ToLower(t)[7] == 'd';
  }

  /** The field a used header cell at index `j` resolves to (`cell.GetString()` then `NormalizeImportHeader`). */
  function HeaderKey(header: Row, j: int, platform: Platform): Option<Field>
    requires 0 <= j < |header|
  {
    if IsEmptyCell(header[j]) then None
    else NormalizeImportHeader(Some(GetString(header[j], platform)))
  }

  /** The field each header cell resolves to, column by column. */
  function HeaderKeys(header: Row, platform: Platform): (keys: seq<Option<Field>>)
    ensures |keys| == |header|
    ensures forall j :: 0 <= j < |header| ==> keys[j] == HeaderKey(header, j, platform)
  {
    seq(|header|, j requires 0 <= j < |header| => HeaderKey(header, j, platform))
  }

  /** The map after visiting the first `n` header cells, left to right, given the field each resolves to. */
  function MapOfKeys(keys: seq<Option<Field>>, n: nat): HeaderMap
    requires n <= |keys|
  {
    if n == 0 then map[]
    else
      var m := MapOfKeys(keys, n - 1);
      match keys[n - 1]
      case None => m
      case Some(f) => m[f := n]
  }

  /** The header map of a whole header row. */
  function HeaderMapOf(header: Row, platform: Platform): HeaderMap {
    var keys := HeaderKeys(header, platform);
    MapOfKeys(keys, |keys|)
  }

  /** A field is mapped exactly when some of the first `n` columns resolves to it. */
  lemma {:induction false} MappedWhenSeen(keys: seq<Option<Field>>, n: nat)
    requires n <= |keys|
    ensures forall f :: f in MapOfKeys(keys, n) <==> exists j :: 0 <= j < n && keys[j] == Some(f)
  {
    if n > 0 {
      MappedWhenSeen(keys, n - 1);
      var m := MapOfKeys(keys, n - 1);
      var m' := MapOfKeys(keys, n);
      forall f
        ensures f in m' <==> exists j :: 0 <= j < n && keys[j] == Some(f)
      {
        if keys[n - 1] == Some(f) {
          assert f in m';
        } else {
          assert f in m' <==> f in m;
          if exists j :: 0 <= j < n && keys[j] == Some(f) {
            var j :| 0 <= j < n && keys[j] == Some(f);
            assert j < n - 1;
          }
        }
      }
    }
  }

  /** A mapped field sits at the LAST of the first `n` columns resolving to it. */
  lemma {:induction false} MappedToLastColumn(keys: seq<Option<Field>>, n: nat)
    requires n <= |keys|
    ensures forall f :: f in MapOfKeys(keys, n) ==>
      var c := MapOfKeys(keys, n)[f];
      1 <= c <= n && keys[c - 1] == Some(f) && forall j :: c <= j < n ==> keys[j] != Some(f)
  {
    if n > 0 {
      MappedToLastColumn(keys, n - 1);
      var m := MapOfKeys(keys, n - 1);
      var m' := MapOfKeys(keys, n);
      forall f | f in m'
        ensures 1 <= m'[f] <= n && keys[m'[f] - 1] == Some(f)
        ensures forall j :: m'[f] <= j < n ==> keys[j] != Some(f)
      {
        if keys[n - 1] == Some(f) {
          assert m'[f] == n;
        } else {
          assert f in m && m'[f] == m[f];
        }
      }
    }
  }

  /**
   * A field is in a header row's map exactly when some header cell resolves to it (see
   * `HeaderKeys`); blank and unrecognised titles add nothing.
   */
  lemma HeaderMapFields(header: Row, platform: Platform)
    ensures forall f :: f in HeaderMapOf(header, platform) <==>
      exists j :: 0 <= j < |header| && HeaderKeys(header, platform)[j] == Some(f)
  {
    MappedWhenSeen(HeaderKeys(header, platform), |header|);
  }

  /** A field maps to the 1-based number of the last header cell resolving to it: the last duplicate wins. */
  lemma HeaderMapLastWins(header: Row, platform: Platform)
    ensures forall f :: f in HeaderMapOf(header, platform) ==>
      && 1 <= HeaderMapOf(header, platform)[f] <= |header|
      && HeaderKeys(header, platform)[HeaderMapOf(header, platform)[f] - 1] == Some(f)
      && forall j :: HeaderMapOf(header, platform)[f] <= j < |header| ==> HeaderKeys(header, platform)[j] != Some(f)
  {
    MappedToLastColumn(HeaderKeys(header, platform), |header|);
  }

  /** `BuildImportHeaderMap`: walks the header cells left to right, writing each resolved field's column. */
  method BuildImportHeaderMap(header: Row, platform: Platform) returns (m: HeaderMap)
    ensures m == HeaderMapOf(header, platform)
  {
    ghost var keys := HeaderKeys(header, platform);
    m := map[];
    var j := 0;
    while j < |header|
      invariant 0 <= j <= |header|
      invariant m == MapOfKeys(keys, j)
    {
      var cell := header[j];
      if !IsEmptyCell(cell) {
        var normalized := NormalizeImportHeader(Some(GetString(cell, platform)));
        assert keys[j] == normalized;
        if normalized.Some? {
          m := m[normalized.value := j + 1];
        }
      } else {
        assert keys[j] == None;
      }
      j := j + 1;
    }
  }
}
