/**
 * Row validation (`ValidateImportRow`): one coerced row is checked against a snapshot of the
 * reference data (active emission sources and parameters) and becomes a preview row. Every
 * check runs whatever the earlier ones found; derived fields (effective measurement date,
 * entry-date default, unit default, approval stamp) are filled in along the way.
 */
module Validation {
  import opened Wrappers
  import opened Text
  import opened ParameterTypes
  import opened ImportModels
  import opened Coercion

  /** What the import needs to know about an active parameter (`ParameterLookup`). */
  datatype ParameterLookup = ParameterLookup(code: string, name: Option<string>, unit: Option<string>, paramType: string)

  /** The reference data read from the database before validating: active sources by id, active parameters by code. */
  datatype Snapshot = Snapshot(sources: map<int32, string>, parameters: map<string, ParameterLookup>)

  /**
   * A row of the parameter table as the import's query reads it: the columns as stored, the
   * type as raw text (the query reads the column, not the normalising property).
   */
  datatype StoredParameter = StoredParameter(code: Option<string>, name: Option<string>, unit: Option<string>,
                                             rawType: Option<string>, isDeleted: bool)

  /**
   * The projection of a stored parameter into the lookup: the code upper-cased (a missing code
   * becomes empty), name and unit copied, and the raw type normalised to a category; a type
   * already stored as a category is kept as it is.
   */
  function LookupOf(p: StoredParameter): (r: ParameterLookup)
    ensures |r.code| == |p.code.GetOr("")|
    ensures forall i :: 0 <= i < |r.code| ==> r.code[i] == ToUpperChar(p.code.GetOr("")[i])
    ensures r.name == p.name && r.unit == p.unit
    ensures r.paramType == Normalize(p.rawType) && IsCategory(r.paramType)
    ensures p.rawType.Some? && IsCategory(p.rawType.value) ==> r.paramType == p.rawType.value
  {
    var r := ParameterLookup(ToUpper(p.code.GetOr("")), p.name, p.unit, Normalize(p.rawType));
    if p.rawType.Some? && IsCategory(p.rawType.value) then NormalizeCategory(p.rawType.value); r else r
  }

  /** `Where(p => !p.IsDeleted).Select(...)`: the lookups of the parameters not deleted, in table order. */
  function ActiveLookups(stored: seq<StoredParameter>): (r: seq<ParameterLookup>)
    ensures forall l :: l in r <==> exists p :: p in stored && !p.isDeleted && l == LookupOf(p)
  {
    if stored == [] then []
    else (if stored[0].isDeleted then [] else [LookupOf(stored[0])]) + ActiveLookups(stored[1..])
  }

  /** No two lookups share a code. */
  predicate DistinctCodes(lookups: seq<ParameterLookup>) {
    forall i, j :: 0 <= i < j < |lookups| ==> lookups[i].code != lookups[j].code
  }

  /**
   * `ToDictionaryAsync(p => p.Code, p => p)`: every lookup under its own code. A repeated code
   * makes `ToDictionary` throw; `None` stands for that exception.
   */
  function CodeDictionary(lookups: seq<ParameterLookup>): (r: Option<map<string, ParameterLookup>>)
    ensures r.Some? <==> DistinctCodes(lookups)
    ensures r.Some? ==> forall k :: k in r.value ==> r.value[k] in lookups && r.value[k].code == k
    ensures r.Some? ==> forall l :: l in lookups ==> l.code in r.value && r.value[l.code] == l
  {
    if lookups == [] then Some(map[])
    else
      var init, last := lookups[..|lookups| - 1], lookups[|lookups| - 1];
      assert lookups == init + [last];
      match CodeDictionary(init)
      case None => None
      case Some(m) => if last.code in m then None else Some(m[last.code := last])
  }

  /** The snapshot's parameters are what the import's query builds from the parameter table. */
  predicate ParametersFrom(snap: Snapshot, stored: seq<StoredParameter>) {
    CodeDictionary(ActiveLookups(stored)) == Some(snap.parameters)
  }

  /** `string.IsNullOrWhiteSpace(s) ? null : s.Trim()`: blank text becomes nothing, other text loses its surrounding white space. */
  function CleanText(s: Option<string>): (r: Option<string>)
    ensures r.None? <==> IsNullOrWhiteSpace(s)
    ensures r.Some? ==> r.value != [] && !IsWhiteSpace(r.value[0]) && !IsWhiteSpace(r.value[|r.value| - 1])
  {
    if IsNullOrWhiteSpace(s) then None
    else
      TrimBlank(s.value);
      TrimmedEnds(s.value);
      Some(Trim(s.value))
  }

  /** The code a parameter is looked up by: trimmed and upper-cased. */
  function NormalizedCode(code: string): string {
    ToUpper(Trim(code))
  }

  /** The parameter a row refers to, when its code is given and known. */
  function FoundParameter(code: Option<string>, snap: Snapshot): (r: Option<ParameterLookup>)
    ensures r.Some? <==> !IsNullOrWhiteSpace(code) && NormalizedCode(code.value) in snap.parameters
  {
    if IsNullOrWhiteSpace(code) then None
    else
      var n := NormalizedCode(code.value);
      if n in snap.parameters then Some(snap.parameters[n]) else None
  }

  /** The error of the emission-source check, if any. */
  function SourceErrors(id: Option<int32>, snap: Snapshot): seq<RowError> {
    if id.None? then [SourceIdRequired]
    else if id.value !in snap.sources then [SourceNotFound(id.value)]
    else []
  }

  /** The error of the parameter check, if any; an unknown code is reported in its normalised form. */
  function ParameterErrors(code: Option<string>, snap: Snapshot): seq<RowError> {
    if IsNullOrWhiteSpace(code) then [ParameterCodeRequired]
    else if NormalizedCode(code.value) !in snap.parameters then [ParameterNotFound(NormalizedCode(code.value))]
    else []
  }

  /** All of a row's errors, in order: coercion errors, then source, parameter, date and value checks. */
  function ValidationErrors(input: RowInput, snap: Snapshot): seq<RowError> {
    input.errors
    + SourceErrors(input.emissionSourceId, snap)
    + ParameterErrors(input.parameterCode, snap)
    + (if input.measurementDate.None? && input.entryDate.None? then [MeasurementDateRequired] else [])
    + (if input.value.None? then [ValueRequired] else [])
  }

  /** The preview `ValidateImportRow` produces for `input`, where `now` is the clock reading. */
  function ValidatedRow(input: RowInput, snap: Snapshot, now: DateTime): RowPreview {
    var parameter := FoundParameter(input.parameterCode, snap);
    var unit := CleanText(input.unit);
    var isApproved := input.isApproved.GetOr(false);
    RowPreview(
      input.rowNumber,
      input.emissionSourceId,
      if input.emissionSourceId.Some? && input.emissionSourceId.value in snap.sources
      then Some(snap.sources[input.emissionSourceId.value]) else None,
      if IsNullOrWhiteSpace(input.parameterCode) then input.parameterCode
      else Some(NormalizedCode(input.parameterCode.value)),
      if parameter.Some? then parameter.value.name else None,
      if parameter.Some? then Some(parameter.value.paramType) else None,
      input.measurementDate.OrElse(input.entryDate),
      Some(input.entryDate.GetOr(input.measurementDate.GetOr(now))),
      input.value,
      if parameter.Some? && unit.None? then parameter.value.unit else unit,
      CleanText(input.remark),
      isApproved,
      if isApproved && input.approvedAt.None? then Some(now) else input.approvedAt,
      ValidationErrors(input, snap))
  }

  /** `foreach (var parseError in input.Errors) preview.Errors.Add(parseError)`. */
  method CopyErrors(preview: RowPreview, errors: seq<RowError>) returns (p: RowPreview)
    ensures p == preview.(errors := preview.errors + errors)
  {
    p := preview;
    for i := 0 to |errors|
      invariant p == preview.(errors := preview.errors + errors[..i])
    {
      p := p.AddError(errors[i]);
      assert errors[..i + 1] == errors[..i] + [errors[i]];
    }
    assert errors[..|errors|] == errors;
  }

  /** The emission-source check: a missing or unknown source is an error, a known one gives the row its name. */
  method CheckSource(preview: RowPreview, snap: Snapshot) returns (p: RowPreview)
    ensures p.errors == preview.errors + SourceErrors(preview.emissionSourceId, snap)
    ensures p.emissionSourceName ==
      if preview.emissionSourceId.Some? && preview.emissionSourceId.value in snap.sources
      then Some(snap.sources[preview.emissionSourceId.value]) else preview.emissionSourceName
    ensures p == preview.(errors := p.errors, emissionSourceName := p.emissionSourceName)
  {
    p := preview;
    if p.emissionSourceId.None? {
      p := p.AddError(SourceIdRequired);
    } else if p.emissionSourceId.value !in snap.sources {
      p := p.AddError(SourceNotFound(p.emissionSourceId.value));
    } else {
      p := p.(emissionSourceName := Some(snap.sources[p.emissionSourceId.value]));
    }
  }

  /**
   * The parameter check: a blank code is an error; otherwise the code is normalised, an unknown
   * one is an error and a known one fills in name, type and, for a row without one, the unit.
   */
  method CheckParameter(preview: RowPreview, snap: Snapshot) returns (p: RowPreview)
    ensures p.errors == preview.errors + ParameterErrors(preview.parameterCode, snap)
    ensures p.parameterCode ==
      if IsNullOrWhiteSpace(preview.parameterCode) then preview.parameterCode
      else Some(NormalizedCode(preview.parameterCode.value))
    ensures var found := FoundParameter(preview.parameterCode, snap);
      && p.parameterName == (if found.Some? then found.value.name else preview.parameterName)
      && p.parameterType == (if found.Some? then Some(found.value.paramType) else preview.parameterType)
      && p.unit == (if found.Some? && IsNullOrWhiteSpace(preview.unit) then found.value.unit else preview.unit)
    ensures p == preview.(errors := p.errors, parameterCode := p.parameterCode, parameterName := p.parameterName,
                          parameterType := p.parameterType, unit := p.unit)
  {
    p := preview;
    if IsNullOrWhiteSpace(p.parameterCode) {
      p := p.AddError(ParameterCodeRequired);
    } else {
      var normalizedCode := ToUpper(Trim(p.parameterCode.value));
      p := p.(parameterCode := Some(normalizedCode));
      if normalizedCode !in snap.parameters {
        p := p.AddError(ParameterNotFound(normalizedCode));
      } else {
        var parameter := snap.parameters[normalizedCode];
        p := p.(parameterName := parameter.name, parameterType := Some(parameter.paramType));
        if IsNullOrWhiteSpace(p.unit) {
          p := p.(unit := parameter.unit);
        }
      }
    }
  }

  /**
   * The date defaults: the measurement date falls back to the entry date (an error when both
   * are missing), and a missing entry date to the measurement date, else to `now`.
   */
  method ApplyDates(preview: RowPreview, now: DateTime) returns (p: RowPreview)
    ensures p.errors == preview.errors
      + (if preview.measurementDate.None? && preview.entryDate.None? then [MeasurementDateRequired] else [])
    ensures p.measurementDate == preview.measurementDate.OrElse(preview.entryDate)
    ensures p.entryDate == Some(preview.entryDate.GetOr(preview.measurementDate.GetOr(now)))
    ensures p == preview.(errors := p.errors, measurementDate := p.measurementDate, entryDate := p.entryDate)
  {
    p := preview;
    var effectiveMeasurementDate := p.measurementDate.OrElse(p.entryDate);
    if effectiveMeasurementDate.None? {
      p := p.AddError(MeasurementDateRequired);
    } else {
      p := p.(measurementDate := effectiveMeasurementDate);
    }
    if p.entryDate.None? {
      p := p.(entryDate := Some(p.measurementDate.GetOr(now)));
    }
  }

  /** The value check, then the approval stamp: an approved row without a time is stamped with `now`. */
  method CheckValueAndApproval(preview: RowPreview, now: DateTime) returns (p: RowPreview)
    ensures p.errors == preview.errors + (if preview.value.None? then [ValueRequired] else [])
    ensures p.approvedAt == if preview.isApproved && preview.approvedAt.None? then Some(now) else preview.approvedAt
    ensures p == preview.(errors := p.errors, approvedAt := p.approvedAt)
  {
    p := preview;
    if p.value.None? {
      p := p.AddError(ValueRequired);
    }
    if p.isApproved && p.approvedAt.None? {
      p := p.(approvedAt := Some(now));
    }
  }

  /** `ValidateImportRow`: builds the preview from the input, then runs the checks in order. */
  method ValidateImportRow(input: RowInput, snap: Snapshot, now: DateTime) returns (preview: RowPreview)
    ensures preview == ValidatedRow(input, snap, now)
  {
    preview := RowPreview(
      input.rowNumber, input.emissionSourceId, None, input.parameterCode, None, None,
      input.measurementDate, input.entryDate, input.value,
      CleanText(input.unit), CleanText(input.remark), input.isApproved.GetOr(false), input.approvedAt, []);
    preview := CopyErrors(preview, input.errors);
    ghost var e0 := preview.errors;
    preview := CheckSource(preview, snap);
    ghost var e1 := preview.errors;
    preview := CheckParameter(preview, snap);
    ghost var e2 := preview.errors;
    preview := ApplyDates(preview, now);
    ghost var e3 := preview.errors;
    preview := CheckValueAndApproval(preview, now);
    assert e0 == input.errors;
    ErrorsOfSteps(input, snap, e0, e1, e2, e3, preview.errors);
  }

  /** The errors the four checks append, one after the other, are `ValidationErrors`. */
  lemma ErrorsOfSteps(input: RowInput, snap: Snapshot, e0: seq<RowError>, e1: seq<RowError>, e2: seq<RowError>,
                      e3: seq<RowError>, e4: seq<RowError>)
    requires e0 == input.errors
    requires e1 == e0 + SourceErrors(input.emissionSourceId, snap)
    requires e2 == e1 + ParameterErrors(input.parameterCode, snap)
    requires e3 == e2 + (if input.measurementDate.None? && input.entryDate.None? then [MeasurementDateRequired] else [])
    requires e4 == e3 + (if input.value.None? then [ValueRequired] else [])
    ensures e4 == ValidationErrors(input, snap)
  {
  }

  /**
   * A preview is valid exactly when coercion found nothing wrong, the source is given and
   * known, the code is given and known, some date is given and the value is given.
   */
  lemma ValidExactly(input: RowInput, snap: Snapshot, now: DateTime)
    ensures ValidatedRow(input, snap, now).IsValid() <==>
      && input.errors == []
      && input.emissionSourceId.Some? && input.emissionSourceId.value in snap.sources
      && !IsNullOrWhiteSpace(input.parameterCode) && NormalizedCode(input.parameterCode.value) in snap.parameters
      && (input.measurementDate.Some? || input.entryDate.Some?)
      && input.value.Some?
  {
  }

  /**
   * The checks never stop early: each validation error is present exactly when its own
   * condition holds, whatever the other fields look like (the input carries coercion errors only).
   * This lemma covers the source check; `ParameterCheckExact` and `DateAndValueChecksExact` the others.
   */
  lemma SourceCheckExact(input: RowInput, snap: Snapshot, now: DateTime)
    requires forall e :: e in input.errors ==> e.IsCoercionError()
    ensures var errors := ValidatedRow(input, snap, now).errors;
      && (SourceIdRequired in errors <==> input.emissionSourceId.None?)
      && (input.emissionSourceId.Some? ==>
            (SourceNotFound(input.emissionSourceId.value) in errors <==> input.emissionSourceId.value !in snap.sources))
  {
    var rest := ParameterErrors(input.parameterCode, snap)
      + (if input.measurementDate.None? && input.entryDate.None? then [MeasurementDateRequired] else [])
      + (if input.value.None? then [ValueRequired] else []);
    var errors := ValidatedRow(input, snap, now).errors;
    assert errors == input.errors + SourceErrors(input.emissionSourceId, snap) + rest;
    assert SourceIdRequired !in rest && SourceIdRequired !in input.errors;
    if input.emissionSourceId.Some? {
      assert SourceNotFound(input.emissionSourceId.value) !in rest;
      assert SourceNotFound(input.emissionSourceId.value) !in input.errors;
    }
  }

  /** The parameter check reports a missing code exactly when the code is absent or blank. */
  lemma ParameterCheckExact(input: RowInput, snap: Snapshot, now: DateTime)
    requires forall e :: e in input.errors ==> e.IsCoercionError()
    ensures var errors := ValidatedRow(input, snap, now).errors;
      && (ParameterCodeRequired in errors <==> IsNullOrWhiteSpace(input.parameterCode))
      && (!IsNullOrWhiteSpace(input.parameterCode) ==>
            ((ParameterNotFound(NormalizedCode(input.parameterCode.value)) in errors)
               <==> (NormalizedCode(input.parameterCode.value) !in snap.parameters)))
  {
    var first := input.errors + SourceErrors(input.emissionSourceId, snap);
    var rest := (if input.measurementDate.None? && input.entryDate.None? then [MeasurementDateRequired] else [])
      + (if input.value.None? then [ValueRequired] else []);
    var errors := ValidatedRow(input, snap, now).errors;
    assert errors == first + ParameterErrors(input.parameterCode, snap) + rest;
    assert ParameterCodeRequired !in first && ParameterCodeRequired !in rest;
    if !IsNullOrWhiteSpace(input.parameterCode) {
      var e := ParameterNotFound(NormalizedCode(input.parameterCode.value));
      assert e !in first && e !in rest;
    }
  }

  /** The date and value checks, like the others, report exactly their own condition. */
  lemma DateAndValueChecksExact(input: RowInput, snap: Snapshot, now: DateTime)
    requires forall e :: e in input.errors ==> e.IsCoercionError()
    ensures var errors := ValidatedRow(input, snap, now).errors;
      && (MeasurementDateRequired in errors <==> input.measurementDate.None? && input.entryDate.None?)
      && (ValueRequired in errors <==> input.value.None?)
  {
    var first := input.errors + SourceErrors(input.emissionSourceId, snap) + ParameterErrors(input.parameterCode, snap);
    assert MeasurementDateRequired !in first && ValueRequired !in first;
    var errors := ValidatedRow(input, snap, now).errors;
    assert errors == first + (if input.measurementDate.None? && input.entryDate.None? then [MeasurementDateRequired] else [])
      + (if input.value.None? then [ValueRequired] else []);
  }

  /** Coercion errors come first, in their order, and validation adds at most four more. */
  lemma CoercionErrorsFirst(input: RowInput, snap: Snapshot, now: DateTime)
    ensures var errors := ValidatedRow(input, snap, now).errors;
      |input.errors| <= |errors| <= |input.errors| + 4 && errors[..|input.errors|] == input.errors
  {
    var errors := ValidatedRow(input, snap, now).errors;
    assert errors == input.errors + (errors[|input.errors|..]);
  }

  /**
   * The measurement date falls back to the entry date and the entry date to the measurement
   * date, so a row with only one of them gets that date in both; with neither, the entry date
   * is `now` and the row is invalid.
   */
  lemma DateDefaults(input: RowInput, snap: Snapshot, now: DateTime)
    ensures var p := ValidatedRow(input, snap, now);
      && p.entryDate.Some?
      && (input.entryDate.Some? ==> p.entryDate == input.entryDate)
      && (input.measurementDate.Some? ==> p.measurementDate == input.measurementDate)
      && (input.measurementDate.None? && input.entryDate.Some? ==> p.measurementDate == p.entryDate)
      && (input.measurementDate.Some? && input.entryDate.None? ==> p.entryDate == p.measurementDate)
      && (p.measurementDate.None? ==> p.entryDate == Some(now) && MeasurementDateRequired in p.errors && !p.IsValid())
  {
  }

  /**
   * An absent approval flag means "not approved"; an approved row always carries an approval
   * time, the given one if any, else `now`; an unapproved row keeps whatever time it had.
   */
  lemma ApprovalStamp(input: RowInput, snap: Snapshot, now: DateTime)
    ensures var p := ValidatedRow(input, snap, now);
      && (p.isApproved <==> input.isApproved == Some(true))
      && (p.isApproved ==> p.approvedAt.Some?)
      && (p.isApproved && input.approvedAt.None? ==> p.approvedAt == Some(now))
      && (input.approvedAt.Some? ==> p.approvedAt == input.approvedAt)
      && (!p.isApproved ==> p.approvedAt == input.approvedAt)
  {
  }

  /**
   * Unit and remark are trimmed and blank ones dropped; a known parameter supplies its unit
   * only to a row whose own unit is blank.
   */
  lemma UnitAndRemark(input: RowInput, snap: Snapshot, now: DateTime)
    ensures var p := ValidatedRow(input, snap, now);
      var found := FoundParameter(input.parameterCode, snap);
      && (!IsNullOrWhiteSpace(input.unit) ==> p.unit == Some(Trim(input.unit.value)))
      && (IsNullOrWhiteSpace(input.unit) && found.Some? ==> p.unit == found.value.unit)
      && (IsNullOrWhiteSpace(input.unit) && found.None? ==> p.unit.None?)
      && (p.remark.None? <==> IsNullOrWhiteSpace(input.remark))
      && (p.remark.Some? ==> p.remark.value == Trim(input.remark.value))
  {
  }

  /**
   * A valid preview has everything a stored measurement needs: a known source (with its name),
   * a known normalised parameter code (with its type), both dates and a value.
   */
  lemma ValidRowComplete(input: RowInput, snap: Snapshot, now: DateTime)
    requires ValidatedRow(input, snap, now).IsValid()
    ensures var p := ValidatedRow(input, snap, now);
      && p.emissionSourceId.Some? && p.emissionSourceId.value in snap.sources
      && p.emissionSourceName == Some(snap.sources[p.emissionSourceId.value])
      && p.parameterCode.Some? && p.parameterCode.value in snap.parameters
      && p.parameterType == Some(snap.parameters[p.parameterCode.value].paramType)
      && p.measurementDate.Some? && p.entryDate.Some? && p.value.Some?
  {
    ValidExactly(input, snap, now);
  }

  /**
   * A snapshot read from the parameter table holds each active parameter under its upper-cased
   * code, and nothing else; every type in it is a category.
   */
  lemma SnapshotParametersFromTable(snap: Snapshot, stored: seq<StoredParameter>)
    requires ParametersFrom(snap, stored)
    ensures forall k :: k in snap.parameters ==>
      snap.parameters[k].code == k && IsCategory(snap.parameters[k].paramType)
      && exists p :: p in stored && !p.isDeleted && snap.parameters[k] == LookupOf(p)
    ensures forall p :: p in stored && !p.isDeleted ==>
      LookupOf(p).code in snap.parameters && snap.parameters[LookupOf(p).code] == LookupOf(p)
  {
    var lookups := ActiveLookups(stored);
    forall p | p in stored && !p.isDeleted
      ensures LookupOf(p) in lookups
    {
    }
  }

  /**
   * With the snapshot read from the parameter table, a row gets a parameter type exactly when an
   * active parameter's upper-cased code is the row's normalised code, and the type is that
   * parameter's stored type normalised: always "air" or "water".
   */
  lemma ValidatedTypeFromTable(input: RowInput, snap: Snapshot, stored: seq<StoredParameter>, now: DateTime)
    requires ParametersFrom(snap, stored)
    ensures var t := ValidatedRow(input, snap, now).parameterType;
      t.Some? ==> (IsCategory(t.value)
                   && exists p :: p in stored && !p.isDeleted && LookupOf(p).code == NormalizedCode(input.parameterCode.value)
                                  && t.value == Normalize(p.rawType))
    ensures forall p :: p in stored && !p.isDeleted && !IsNullOrWhiteSpace(input.parameterCode)
                        && LookupOf(p).code == NormalizedCode(input.parameterCode.value) ==>
      ValidatedRow(input, snap, now).parameterType == Some(Normalize(p.rawType))
  {
    SnapshotParametersFromTable(snap, stored);
  }

  /**
   * A value cell that is present but unreadable is reported twice: by coercion as invalid and
   * by validation as missing, so the row is invalid.
   */
  lemma MalformedValueReportedTwice(row: Cells.Row, rowNumber: int, headerMap: HeaderMapping.HeaderMap,
                                    platform: Cells.Platform, snap: Snapshot, now: DateTime)
    requires IsMalformed(row, headerMap, HeaderMapping.Value, platform)
    ensures ParsedRow(row, rowNumber, headerMap, platform).Some?
    ensures var errors := ValidatedRow(ParsedRow(row, rowNumber, headerMap, platform).value, snap, now).errors;
      ValueInvalid in errors && ValueRequired in errors
  {
    MalformedFieldEmpty(row, rowNumber, headerMap, HeaderMapping.Value, platform);
    CoercionErrorsExact(row, headerMap, HeaderMapping.Value, platform);
  }
}
