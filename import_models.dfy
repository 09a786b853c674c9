/** The data shapes exchanged by the import service: the echoed confirm request, the row preview and the two responses. */
module ImportModels {
  import opened Wrappers
  import opened Text

  /** C#'s `int`. */
  newtype int32 = x: int | -0x8000_0000 <= x < 0x8000_0000

  /** A `DateTime` as its tick count; the import only ever produces unspecified-kind (naive) instants. */
  datatype DateTime = DateTime(ticks: int)

  /** A `double`, carried and compared but never computed with: its 64-bit pattern. */
  datatype Double = Double(bits: bv64)

  /** One row as the caller echoes it back to Confirm. `isApproved` is not nullable: absent means false. */
  datatype RowRequest = RowRequest(
    rowNumber: int,
    emissionSourceId: Option<int32>,
    parameterCode: Option<string>,
    measurementDate: Option<DateTime>,
    entryDate: Option<DateTime>,
    value: Option<Double>,
    unit: Option<string>,
    remark: Option<string>,
    isApproved: bool,
    approvedAt: Option<DateTime>)

  datatype ConfirmRequest = ConfirmRequest(rows: seq<RowRequest>)

  /**
   * The messages a row can collect, from coercion ("… is invalid.") and from validation
   * ("… is required.", "… was not found."); `Message` is the text the caller sees.
   */
  datatype RowError =
    | SourceIdInvalid
    | MeasurementDateInvalid
    | EntryDateInvalid
    | ValueInvalid
    | IsApprovedInvalid
    | ApprovedAtInvalid
    | SourceIdRequired
    | SourceNotFound(id: int32)
    | ParameterCodeRequired
    | ParameterNotFound(code: string)
    | MeasurementDateRequired
    | ValueRequired
  {
    /** The "… is invalid." errors, which only coercion produces. */
    predicate IsCoercionError() {
      SourceIdInvalid? || MeasurementDateInvalid? || EntryDateInvalid? || ValueInvalid? || IsApprovedInvalid? || ApprovedAtInvalid?
    }

    function Message(): string {
      match this
      case SourceIdInvalid => "Emission Source ID is invalid."
      case MeasurementDateInvalid => "Measurement date value is invalid."
      case EntryDateInvalid => "Entry date value is invalid."
      case ValueInvalid => "Value is invalid."
      case IsApprovedInvalid => "IsApproved value is invalid."
      case ApprovedAtInvalid => "Approved At value is invalid."
      case SourceIdRequired => "Emission Source ID is required."
      case SourceNotFound(id) => "Emission source #" + IntString(id as int) + " was not found."
      case ParameterCodeRequired => "Parameter code is required."
      case ParameterNotFound(code) => "Parameter " + code + " was not found."
      case MeasurementDateRequired => "Measurement date is required."
      case ValueRequired => "Value is required."
    }
  }

  /** One validated row. Its validity is derived from `errors`, never stored. */
  datatype RowPreview = RowPreview(
    rowNumber: int,
    emissionSourceId: Option<int32>,
    emissionSourceName: Option<string>,
    parameterCode: Option<string>,
    parameterName: Option<string>,
    parameterType: Option<string>,
    measurementDate: Option<DateTime>,
    entryDate: Option<DateTime>,
    value: Option<Double>,
    unit: Option<string>,
    remark: Option<string>,
    isApproved: bool,
    approvedAt: Option<DateTime>,
    errors: seq<RowError>)
  {
    predicate IsValid() {
      |errors| == 0
    }

    /** The row's `Errors` list as the caller sees it. */
    function ErrorMessages(): (m: seq<string>)
      ensures |m| == |errors|
      ensures forall i :: 0 <= i < |errors| ==> m[i] == errors[i].Message()
    {
      seq(|errors|, i requires 0 <= i < |errors| => errors[i].Message())
    }

    /** `Errors.Add(e)`: the list only grows. */
    function AddError(e: RowError): (p: RowPreview)
      ensures p.errors == errors + [e]
      ensures !p.IsValid()
    {
      this.(errors := errors + [e])
    }
  }

  datatype PreviewResponse = PreviewResponse(
    rows: seq<RowPreview>,
    totalRows: int,
    validRows: int,
    invalidRows: int)

  datatype ConfirmResponse = ConfirmResponse(
    totalRows: int,
    insertedRows: int,
    failedRows: int,
    rows: seq<RowPreview>)

  /** `rows.Count(r => r.IsValid)`. */
  function CountValid(rows: seq<RowPreview>): (n: nat)
    ensures n <= |rows|
  {
    if rows == [] then 0 else (if rows[0].IsValid() then 1 else 0) + CountValid(rows[1..])
  }

  /** `rows.Count(r => !r.IsValid)`. */
  function CountInvalid(rows: seq<RowPreview>): (n: nat)
    ensures n <= |rows|
  {
    if rows == [] then 0 else (if rows[0].IsValid() then 0 else 1) + CountInvalid(rows[1..])
  }

  /** `rows.Where(r => r.IsValid).ToList()`. */
  function ValidOnly(rows: seq<RowPreview>): (v: seq<RowPreview>)
    ensures |v| == CountValid(rows)
    ensures forall p :: p in v ==> p in rows && p.IsValid()
    ensures forall p :: p in rows && p.IsValid() ==> p in v
  {
    if rows == [] then []
    else (if rows[0].IsValid() then [rows[0]] else []) + ValidOnly(rows[1..])
  }

  /** Filtering works piecewise: the valid rows of `a + b` are those of `a`, then those of `b`, so the input order is kept. */
  lemma {:induction false} ValidOnlyAppend(a: seq<RowPreview>, b: seq<RowPreview>)
    ensures ValidOnly(a + b) == ValidOnly(a) + ValidOnly(b)
  {
    if a == [] {
      assert a + b == b;
    } else {
      assert (a + b)[1..] == a[1..] + b;
      ValidOnlyAppend(a[1..], b);
    }
  }

  /** Each valid row is kept as many times as it occurs in the input, and no invalid row is kept. */
  lemma {:induction false} ValidOnlyMultiplicity(rows: seq<RowPreview>)
    ensures forall p :: multiset(ValidOnly(rows))[p] == if p.IsValid() then multiset(rows)[p] else 0
  {
    if rows != [] {
      ValidOnlyMultiplicity(rows[1..]);
      assert rows == [rows[0]] + rows[1..];
    }
  }

  /** Every row is either valid or invalid, so the two counts add up to the number of rows. */
  lemma {:induction false} CountsPartition(rows: seq<RowPreview>)
    ensures CountValid(rows) + CountInvalid(rows) == |rows|
  {
    if rows != [] {
      CountsPartition(rows[1..]);
    }
  }
}
