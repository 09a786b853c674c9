/**
 * Turning one worksheet row into a typed, not yet validated row: the per-field cell coercers
 * (`TryGet*Value`), the blank-row test (`IsRowCompletelyEmpty`) and `ParseImportRow`.
 * A coerced cell is in one of three states: absent (no column, or an empty cell), parsed,
 * or malformed (present but unreadable, which earns the field's own "… is invalid." error).
 */
module Coercion {
  import opened Wrappers
  import opened Text
  import opened ImportModels
  import opened Cells
  import opened HeaderMapping

  datatype Coerced<T> = Absent | Parsed(value: T) | Malformed {
    /** The field value the row gets: nothing unless the cell parsed. */
    function ToOption(): Option<T> {
      if Parsed? then Some(value) else None
    }
  }

  /** A parse attempt on a present cell: it either produced a value or the cell is malformed. */
  function FromAttempt<T>(attempt: Option<T>): (r: Coerced<T>)
    ensures !r.Absent? && r.ToOption() == attempt
  {
    if attempt.Some? then Parsed(attempt.value) else Malformed
  }

  /** The column for `key` exists and its cell is not empty (`hasRawValue`). */
  predicate HasRawValue(row: Row, headerMap: HeaderMap, key: Field) {
    key in headerMap && !IsEmptyCell(CellAt(row, headerMap[key]))
  }

  /** The cell of the column mapped to `key`. */
  function MappedCell(row: Row, headerMap: HeaderMap, key: Field): Cell
    requires key in headerMap
  {
    CellAt(row, headerMap[key])
  }

  /** A cell holding some non-white-space text. */
  predicate HasText(c: Cell, platform: Platform) {
    !IsEmptyCell(c) && !IsBlank(GetString(c, platform))
  }

  /** `TryGetStringValue`: the trimmed text of a cell holding some non-blank text; blank text counts as absent. */
  function TryGetStringValue(row: Row, headerMap: HeaderMap, key: Field, platform: Platform): (r: Option<string>)
    ensures r.Some? <==> key in headerMap && HasText(MappedCell(row, headerMap, key), platform)
  {
    if key !in headerMap then None
    else
      var cell := CellAt(row, headerMap[key]);
      if IsEmptyCell(cell) then None
      else
        var text := GetString(cell, platform);
        if IsBlank(text) then None else Some(Trim(text))
  }

  /** A text field's value is the cell's text, trimmed, and never empty. */
  lemma StringCoercion(row: Row, headerMap: HeaderMap, key: Field, platform: Platform)
    ensures var r := TryGetStringValue(row, headerMap, key, platform);
      r.Some? ==> r.value == Trim(GetString(MappedCell(row, headerMap, key), platform)) && r.value != []
  {
    if key in headerMap {
      TrimBlank(GetString(MappedCell(row, headerMap, key), platform));
    }
  }

  /** `TryGetIntValue`: a native number is rounded; text is parsed with the invariant, then the current culture. */
  function TryGetIntValue(row: Row, headerMap: HeaderMap, key: Field, platform: Platform): (r: Coerced<int32>)
    ensures r.Absent? <==> !HasRawValue(row, headerMap, key)
  {
    if key !in headerMap then Absent
    else
      var cell := CellAt(row, headerMap[key]);
      if IsEmptyCell(cell) then Absent
      else if platform.cellAsNumber(cell).Some? then Parsed(platform.roundToInt32(platform.cellAsNumber(cell).value))
      else
        var text := GetString(cell, platform);
        if platform.intInvariant(text).Some? then Parsed(platform.intInvariant(text).value)
        else if platform.intCurrent(text).Some? then Parsed(platform.intCurrent(text).value)
        else Malformed
  }

  /** `TryGetDoubleValue`: a native number as it is; text is parsed with the invariant, then the current culture. */
  function TryGetDoubleValue(row: Row, headerMap: HeaderMap, key: Field, platform: Platform): (r: Coerced<Double>)
    ensures r.Absent? <==> !HasRawValue(row, headerMap, key)
  {
    if key !in headerMap then Absent
    else
      var cell := CellAt(row, headerMap[key]);
      if IsEmptyCell(cell) then Absent
      else if platform.cellAsNumber(cell).Some? then Parsed(platform.cellAsNumber(cell).value)
      else
        var text := GetString(cell, platform);
        if platform.doubleInvariant(text).Some? then Parsed(platform.doubleInvariant(text).value)
        else if platform.doubleCurrent(text).Some? then Parsed(platform.doubleCurrent(text).value)
        else Malformed
  }

  /**
   * The text rules of `TryGetBooleanValue`, on trimmed text: `bool.TryParse` ("true"/"false" in
   * any case), then any integer (non-zero is true), then "yes"/"no" in any case.
   */
  function ParseBooleanText(text: string, platform: Platform): (r: Option<bool>)
    ensures EqualsIgnoreCase(text, "true") ==> r == Some(true)
    ensures EqualsIgnoreCase(text, "false") ==> r == Some(false)
    ensures !EqualsIgnoreCase(text, "true") && !EqualsIgnoreCase(text, "false") ==>
      match platform.intCurrent(text)
      case Some(n) => r == Some(n != 0)
      case None =>
        && (r == Some(true) <==> EqualsIgnoreCase(text, "yes"))
        && (r == Some(false) <==> EqualsIgnoreCase(text, "no"))
  {
    if EqualsIgnoreCase(text, "true") then Some(true)
    else if EqualsIgnoreCase(text, "false") then Some(false)
    else if platform.intCurrent(text).Some? then Some(platform.intCurrent(text).value != 0)
    else if EqualsIgnoreCase(text, "yes") then Some(true)
    else if EqualsIgnoreCase(text, "no") then Some(false)
    else None
  }

  /** `TryGetBooleanValue`: a native boolean as it is; any other present cell by its trimmed text. */
  function TryGetBooleanValue(row: Row, headerMap: HeaderMap, key: Field, platform: Platform): (r: Coerced<bool>)
    ensures r.Absent? <==> !HasRawValue(row, headerMap, key)
  {
    if key !in headerMap then Absent
    else
      var cell := CellAt(row, headerMap[key]);
      if IsEmptyCell(cell) then Absent
      else if cell.BooleanCell? then Parsed(cell.flag)
      else
        var parsed := ParseBooleanText(Trim(GetString(cell, platform)), platform);
        if parsed.Some? then Parsed(parsed.value) else Malformed
  }

  /** The spreadsheet date-serial reading of a text, where `FromOADate` does not throw. */
  function SerialDate(text: string, platform: Platform): Option<DateTime> {
    match platform.doubleFloatInvariant(text)
    case Some(d) => platform.fromOADate(d)
    case None => None
  }

  /**
   * `TryGetDateValue`: a native date as it is; text is parsed as a date with the invariant, then
   * the current culture, and last as a number holding a spreadsheet date serial.
   */
  function TryGetDateValue(row: Row, headerMap: HeaderMap, key: Field, platform: Platform): (r: Coerced<DateTime>)
    ensures r.Absent? <==> !HasRawValue(row, headerMap, key)
  {
    if key !in headerMap then Absent
    else
      var cell := CellAt(row, headerMap[key]);
      if IsEmptyCell(cell) then Absent
      else if platform.cellAsDate(cell).Some? then Parsed(platform.cellAsDate(cell).value)
      else
        var text := GetString(cell, platform);
        if platform.dateInvariant(text).Some? then Parsed(platform.dateInvariant(text).value)
        else if platform.dateCurrent(text).Some? then Parsed(platform.dateCurrent(text).value)
        else
          var serial := SerialDate(text, platform);
          if serial.Some? then Parsed(serial.value) else Malformed
  }

  /** A present cell holding a native number is rounded; other text is tried with the invariant culture, then the current one; failing both, the cell is malformed. */
  lemma IntCoercion(row: Row, headerMap: HeaderMap, key: Field, platform: Platform)
    ensures HasRawValue(row, headerMap, key) ==>
      var cell := MappedCell(row, headerMap, key);
      var text := GetString(cell, platform);
      match platform.cellAsNumber(cell)
      case Some(d) => TryGetIntValue(row, headerMap, key, platform) == Parsed(platform.roundToInt32(d))
      case None => TryGetIntValue(row, headerMap, key, platform) == FromAttempt(platform.intInvariant(text).OrElse(platform.intCurrent(text)))
  {
  }

  /** A present cell holding a native number is taken as it is; other text is tried with the invariant culture, then the current one; failing both, the cell is malformed. */
  lemma DoubleCoercion(row: Row, headerMap: HeaderMap, key: Field, platform: Platform)
    ensures HasRawValue(row, headerMap, key) ==>
      var cell := MappedCell(row, headerMap, key);
      var text := GetString(cell, platform);
      TryGetDoubleValue(row, headerMap, key, platform) == FromAttempt(platform.cellAsNumber(cell).OrElse(platform.doubleInvariant(text)).OrElse(platform.doubleCurrent(text)))
  {
  }

  /** A present native boolean is taken as it is; any other present cell is read from its trimmed text. */
  lemma BooleanCoercion(row: Row, headerMap: HeaderMap, key: Field, platform: Platform)
    ensures HasRawValue(row, headerMap, key) ==>
      var cell := MappedCell(row, headerMap, key);
      TryGetBooleanValue(row, headerMap, key, platform) == if cell.BooleanCell? then Parsed(cell.flag)
           else FromAttempt(ParseBooleanText(Trim(GetString(cell, platform)), platform))
  {
  }

  /** A present native date is taken as it is; other text is tried as a date with the invariant culture, then the current one, then as a date serial; failing all, the cell is malformed. */
  lemma DateCoercion(row: Row, headerMap: HeaderMap, key: Field, platform: Platform)
    ensures HasRawValue(row, headerMap, key) ==>
      var cell := MappedCell(row, headerMap, key);
      var text := GetString(cell, platform);
      TryGetDateValue(row, headerMap, key, platform) == FromAttempt(platform.cellAsDate(cell).OrElse(platform.dateInvariant(text))
                         .OrElse(platform.dateCurrent(text)).OrElse(SerialDate(text, platform)))
  {
  }

  /** The row before validation (`MeasurementImportRowInput`), with the coercion errors met so far. */
  datatype RowInput = RowInput(
    rowNumber: int,
    emissionSourceId: Option<int32>,
    parameterCode: Option<string>,
    measurementDate: Option<DateTime>,
    entryDate: Option<DateTime>,
    value: Option<Double>,
    unit: Option<string>,
    remark: Option<string>,
    isApproved: Option<bool>,
    approvedAt: Option<DateTime>,
    errors: seq<RowError>)

  /** The fields whose cells are parsed, and so can be malformed. */
  predicate IsTyped(f: Field) {
    !(f.ParameterCode? || f.Unit? || f.Remark?)
  }

  /** Each typed field's own error for a malformed cell. */
  function InvalidError(f: Field): RowError
    requires IsTyped(f)
  {
    match f
    case EmissionSourceId => SourceIdInvalid
    case MeasurementDate => MeasurementDateInvalid
    case EntryDate => EntryDateInvalid
    case Value => ValueInvalid
    case IsApproved => IsApprovedInvalid
    case ApprovedAt => ApprovedAtInvalid
  }

  /** The field's cell is present but could not be read. */
  predicate IsMalformed(row: Row, headerMap: HeaderMap, f: Field, platform: Platform) {
    match f
    case EmissionSourceId => TryGetIntValue(row, headerMap, f, platform).Malformed?
    case MeasurementDate => TryGetDateValue(row, headerMap, f, platform).Malformed?
    case EntryDate => TryGetDateValue(row, headerMap, f, platform).Malformed?
    case Value => TryGetDoubleValue(row, headerMap, f, platform).Malformed?
    case IsApproved => TryGetBooleanValue(row, headerMap, f, platform).Malformed?
    case ApprovedAt => TryGetDateValue(row, headerMap, f, platform).Malformed?
    case _ => false
  }

  /** The field contributes something to the row (a value or a coercion error): `hasValue` in `ParseImportRow`. */
  predicate IsPresent(row: Row, headerMap: HeaderMap, f: Field, platform: Platform) {
    if IsTyped(f) then HasRawValue(row, headerMap, f)
    else TryGetStringValue(row, headerMap, f, platform).Some?
  }

  /** Some mapped field is present. */
  predicate AnyPresent(row: Row, headerMap: HeaderMap, platform: Platform) {
    || IsPresent(row, headerMap, EmissionSourceId, platform)
    || IsPresent(row, headerMap, ParameterCode, platform)
    || IsPresent(row, headerMap, MeasurementDate, platform)
    || IsPresent(row, headerMap, EntryDate, platform)
    || IsPresent(row, headerMap, Value, platform)
    || IsPresent(row, headerMap, Unit, platform)
    || IsPresent(row, headerMap, Remark, platform)
    || IsPresent(row, headerMap, IsApproved, platform)
    || IsPresent(row, headerMap, ApprovedAt, platform)
  }

  function ErrorIf(malformed: bool, e: RowError): seq<RowError> {
    if malformed then [e] else []
  }

  /** The coercion errors of a row, in the order `ParseImportRow` meets the fields. */
  function CoercionErrors(row: Row, headerMap: HeaderMap, platform: Platform): seq<RowError> {
    ErrorIf(IsMalformed(row, headerMap, EmissionSourceId, platform), InvalidError(EmissionSourceId))
    + ErrorIf(IsMalformed(row, headerMap, MeasurementDate, platform), InvalidError(MeasurementDate))
    + ErrorIf(IsMalformed(row, headerMap, EntryDate, platform), InvalidError(EntryDate))
    + ErrorIf(IsMalformed(row, headerMap, Value, platform), InvalidError(Value))
    + ErrorIf(IsMalformed(row, headerMap, IsApproved, platform), InvalidError(IsApproved))
    + ErrorIf(IsMalformed(row, headerMap, ApprovedAt, platform), InvalidError(ApprovedAt))
  }

  /** What `ParseImportRow` returns: nothing when no mapped field is present, else the coerced row. */
  function ParsedRow(row: Row, rowNumber: int, headerMap: HeaderMap, platform: Platform): Option<RowInput> {
    if AnyPresent(row, headerMap, platform) then
      Some(RowInput(
        rowNumber,
        TryGetIntValue(row, headerMap, EmissionSourceId, platform).ToOption(),
        TryGetStringValue(row, headerMap, ParameterCode, platform),
        TryGetDateValue(row, headerMap, MeasurementDate, platform).ToOption(),
        TryGetDateValue(row, headerMap, EntryDate, platform).ToOption(),
        TryGetDoubleValue(row, headerMap, Value, platform).ToOption(),
        TryGetStringValue(row, headerMap, Unit, platform),
        TryGetStringValue(row, headerMap, Remark, platform),
        TryGetBooleanValue(row, headerMap, IsApproved, platform).ToOption(),
        TryGetDateValue(row, headerMap, ApprovedAt, platform).ToOption(),
        CoercionErrors(row, headerMap, platform)))
    else None
  }

  /**
   * One typed-field step of `ParseImportRow`: a parsed value is kept, a malformed cell adds the
   * field's error, and either marks the row as having something in it.
   */
  method TakeCoerced<T>(c: Coerced<T>, e: RowError, errors: seq<RowError>, hasValue: bool)
    returns (field: Option<T>, errors': seq<RowError>, hasValue': bool)
    ensures field == c.ToOption()
    ensures errors' == errors + ErrorIf(c.Malformed?, e)
    ensures hasValue' == (hasValue || !c.Absent?)
  {
    field, errors', hasValue' := None, errors, hasValue;
    if c.Parsed? {
      field := Some(c.value);
      hasValue' := true;
    } else if c.Malformed? {
      errors' := errors + [e];
      hasValue' := true;
    }
  }

  /** A row's coercion errors name exactly its malformed typed fields, each by its own error. */
  lemma CoercionErrorsExact(row: Row, headerMap: HeaderMap, f: Field, platform: Platform)
    requires IsTyped(f)
    ensures InvalidError(f) in CoercionErrors(row, headerMap, platform) <==> IsMalformed(row, headerMap, f, platform)
  {
    InChain(
      IsMalformed(row, headerMap, EmissionSourceId, platform),
      IsMalformed(row, headerMap, MeasurementDate, platform),
      IsMalformed(row, headerMap, EntryDate, platform),
      IsMalformed(row, headerMap, Value, platform),
      IsMalformed(row, headerMap, IsApproved, platform),
      IsMalformed(row, headerMap, ApprovedAt, platform),
      InvalidError(f));
  }

  /** Membership in a chain of six conditional errors. */
  lemma InChain(m1: bool, m2: bool, m3: bool, m4: bool, m5: bool, m6: bool, e: RowError)
    ensures (e in ErrorIf(m1, SourceIdInvalid) + ErrorIf(m2, MeasurementDateInvalid) + ErrorIf(m3, EntryDateInvalid)
               + ErrorIf(m4, ValueInvalid) + ErrorIf(m5, IsApprovedInvalid) + ErrorIf(m6, ApprovedAtInvalid))
      <==> ((m1 && e == SourceIdInvalid) || (m2 && e == MeasurementDateInvalid) || (m3 && e == EntryDateInvalid)
            || (m4 && e == ValueInvalid) || (m5 && e == IsApprovedInvalid) || (m6 && e == ApprovedAtInvalid))
  {
  }

  /** A malformed cell still makes the row count as present, and leaves its field without a value. */
  lemma MalformedFieldEmpty(row: Row, rowNumber: int, headerMap: HeaderMap, f: Field, platform: Platform)
    requires IsTyped(f) && IsMalformed(row, headerMap, f, platform)
    ensures var input := ParsedRow(row, rowNumber, headerMap, platform);
      input.Some? && match f
        case EmissionSourceId => input.value.emissionSourceId.None?
        case MeasurementDate => input.value.measurementDate.None?
        case EntryDate => input.value.entryDate.None?
        case Value => input.value.value.None?
        case IsApproved => input.value.isApproved.None?
        case ApprovedAt => input.value.approvedAt.None?
        case _ => false
  {
    assert IsPresent(row, headerMap, f, platform);
  }

  /**
   * A row holds no text in any mapped column (`headerMap.Values`, duplicates ignored); with no
   * column mapped, the whole row is inspected instead.
   */
  predicate RowCompletelyEmpty(row: Row, headerMap: HeaderMap, platform: Platform) {
    if headerMap == map[] then RowIsEmpty(row)
    else forall f :: f in headerMap ==> !HasText(MappedCell(row, headerMap, f), platform)
  }

  /** `IsRowCompletelyEmpty`: looks at the mapped columns one by one and stops at the first one holding text. */
  method IsRowCompletelyEmpty(row: Row, headerMap: HeaderMap, platform: Platform) returns (empty: bool)
    ensures empty == RowCompletelyEmpty(row, headerMap, platform)
  {
    if headerMap == map[] {
      return forall j :: 0 <= j < |row| ==> IsEmptyCell(row[j]);
    }
    for i := 0 to |Fields|
      invariant forall k :: 0 <= k < i && Fields[k] in headerMap ==> !HasText(MappedCell(row, headerMap, Fields[k]), platform)
    {
      var f := Fields[i];
      if f in headerMap && HasText(CellAt(row, headerMap[f]), platform) {
        return false;
      }
    }
    forall f | f in headerMap
      ensures !HasText(MappedCell(row, headerMap, f), platform)
    {
      assert Fields[FieldIndex(f)] == f;
    }
    return true;
  }

  /** A row with text under some mapped column is never skipped by `ParseImportRow`. */
  lemma NonBlankRowParses(row: Row, rowNumber: int, headerMap: HeaderMap, platform: Platform)
    requires headerMap != map[] && !RowCompletelyEmpty(row, headerMap, platform)
    ensures ParsedRow(row, rowNumber, headerMap, platform).Some?
  {
    var f :| f in headerMap && HasText(MappedCell(row, headerMap, f), platform);
    assert IsPresent(row, headerMap, f, platform);
    AnyPresentOfField(row, headerMap, f, platform);
  }

  /** One present field is enough for the row to be present. */
  lemma AnyPresentOfField(row: Row, headerMap: HeaderMap, f: Field, platform: Platform)
    requires IsPresent(row, headerMap, f, platform)
    ensures AnyPresent(row, headerMap, platform)
  {
    match f
    case EmissionSourceId =>
    case ParameterCode =>
    case MeasurementDate =>
    case EntryDate =>
    case Value =>
    case Unit =>
    case Remark =>
    case IsApproved =>
    case ApprovedAt =>
  }

  /** `CoercionErrors` spelled out over the six coerced cells. */
  lemma CoercionErrorsOfCells(row: Row, headerMap: HeaderMap, platform: Platform)
    ensures CoercionErrors(row, headerMap, platform) ==
      ErrorIf(TryGetIntValue(row, headerMap, EmissionSourceId, platform).Malformed?, InvalidError(EmissionSourceId))
      + ErrorIf(TryGetDateValue(row, headerMap, MeasurementDate, platform).Malformed?, InvalidError(MeasurementDate))
      + ErrorIf(TryGetDateValue(row, headerMap, EntryDate, platform).Malformed?, InvalidError(EntryDate))
      + ErrorIf(TryGetDoubleValue(row, headerMap, Value, platform).Malformed?, InvalidError(Value))
      + ErrorIf(TryGetBooleanValue(row, headerMap, IsApproved, platform).Malformed?, InvalidError(IsApproved))
      + ErrorIf(TryGetDateValue(row, headerMap, ApprovedAt, platform).Malformed?, InvalidError(ApprovedAt))
  {
  }

  /** `AnyPresent` spelled out over the coerced cells. */
  lemma AnyPresentOfCells(row: Row, headerMap: HeaderMap, platform: Platform)
    ensures AnyPresent(row, headerMap, platform) <==>
      || !TryGetIntValue(row, headerMap, EmissionSourceId, platform).Absent?
      || TryGetStringValue(row, headerMap, ParameterCode, platform).Some?
      || !TryGetDateValue(row, headerMap, MeasurementDate, platform).Absent?
      || !TryGetDateValue(row, headerMap, EntryDate, platform).Absent?
      || !TryGetDoubleValue(row, headerMap, Value, platform).Absent?
      || TryGetStringValue(row, headerMap, Unit, platform).Some?
      || TryGetStringValue(row, headerMap, Remark, platform).Some?
      || !TryGetBooleanValue(row, headerMap, IsApproved, platform).Absent?
      || !TryGetDateValue(row, headerMap, ApprovedAt, platform).Absent?
  {
  }

  /** Six appends in a row, starting from nothing, give the concatenation of what was appended. */
  lemma AppendChain<E>(e1: seq<E>, e2: seq<E>, e3: seq<E>, e4: seq<E>, e5: seq<E>, e6: seq<E>,
                      x1: seq<E>, x2: seq<E>, x3: seq<E>, x4: seq<E>, x5: seq<E>, x6: seq<E>)
    requires e1 == [] + x1 && e2 == e1 + x2 && e3 == e2 + x3 && e4 == e3 + x4 && e5 == e4 + x5 && e6 == e5 + x6
    ensures e6 == x1 + x2 + x3 + x4 + x5 + x6
  {
    assert [] + x1 == x1;
  }

  /** One text-field step of `ParseImportRow`: a non-blank text is kept and marks the row as having something in it. */
  method TakeText(text: Option<string>, hasValue: bool) returns (field: Option<string>, hasValue': bool)
    ensures field == text
    ensures hasValue' == (hasValue || text.Some?)
  {
    field, hasValue' := None, hasValue;
    if text.Some? {
      field := text;
      hasValue' := true;
    }
  }

  /** `ParseImportRow`: fills the row in field by field, appending an error for each malformed cell. */
  method ParseImportRow(row: Row, rowNumber: int, headerMap: HeaderMap, platform: Platform)
    returns (input: Option<RowInput>)
    ensures input == ParsedRow(row, rowNumber, headerMap, platform)
  {
    var r := RowInput(rowNumber, None, None, None, None, None, None, None, None, None, []);
    var errors: seq<RowError> := [];
    var hasValue := false;
    var sourceId, parameterCode, measurementDate, entryDate, value, unit, remark, isApproved, approvedAt;

    var sourceIdCell := TryGetIntValue(row, headerMap, EmissionSourceId, platform);
    sourceId, errors, hasValue := TakeCoerced(sourceIdCell, InvalidError(EmissionSourceId), errors, hasValue);
    r := r.(emissionSourceId := sourceId);
    ghost var e1 := errors;

    parameterCode, hasValue := TakeText(TryGetStringValue(row, headerMap, ParameterCode, platform), hasValue);
    r := r.(parameterCode := parameterCode);

    var measurementDateCell := TryGetDateValue(row, headerMap, MeasurementDate, platform);
    measurementDate, errors, hasValue := TakeCoerced(measurementDateCell, InvalidError(MeasurementDate), errors, hasValue);
    r := r.(measurementDate := measurementDate);
    ghost var e2 := errors;

    var entryDateCell := TryGetDateValue(row, headerMap, EntryDate, platform);
    entryDate, errors, hasValue := TakeCoerced(entryDateCell, InvalidError(EntryDate), errors, hasValue);
    r := r.(entryDate := entryDate);
    ghost var e3 := errors;

    var valueCell := TryGetDoubleValue(row, headerMap, Value, platform);
    value, errors, hasValue := TakeCoerced(valueCell, InvalidError(Value), errors, hasValue);
    r := r.(value := value);
    ghost var e4 := errors;

    unit, hasValue := TakeText(TryGetStringValue(row, headerMap, Unit, platform), hasValue);
    r := r.(unit := unit);

    remark, hasValue := TakeText(TryGetStringValue(row, headerMap, Remark, platform), hasValue);
    r := r.(remark := remark);

    var isApprovedCell := TryGetBooleanValue(row, headerMap, IsApproved, platform);
    isApproved, errors, hasValue := TakeCoerced(isApprovedCell, InvalidError(IsApproved), errors, hasValue);
    r := r.(isApproved := isApproved);
    ghost var e5 := errors;

    var approvedAtCell := TryGetDateValue(row, headerMap, ApprovedAt, platform);
    approvedAt, errors, hasValue := TakeCoerced(approvedAtCell, InvalidError(ApprovedAt), errors, hasValue);
    r := r.(approvedAt := approvedAt, errors := errors);

    AppendChain(e1, e2, e3, e4, e5, errors,
      ErrorIf(sourceIdCell.Malformed?, InvalidError(EmissionSourceId)),
      ErrorIf(measurementDateCell.Malformed?, InvalidError(MeasurementDate)),
      ErrorIf(entryDateCell.Malformed?, InvalidError(EntryDate)),
      ErrorIf(valueCell.Malformed?, InvalidError(Value)),
      ErrorIf(isApprovedCell.Malformed?, InvalidError(IsApproved)),
      ErrorIf(approvedAtCell.Malformed?, InvalidError(ApprovedAt)));
    CoercionErrorsOfCells(row, headerMap, platform);
    AnyPresentOfCells(row, headerMap, platform);
    input := if hasValue then Some(r) else None;
  }
}
