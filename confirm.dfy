/**
 * The confirm step (`ConfirmAsync`): the rows the caller echoes back are validated again against
 * a fresh snapshot of the reference data, a measurement record is stored for each valid row, and
 * one audit entry is logged when anything was stored. The stored records and the audit entry are
 * returned alongside the service result instead of being written.
 */
module ImportConfirm {
  import opened Wrappers
  import opened Text
  import opened ImportModels
  import opened ServiceResults
  import opened Coercion
  import opened Validation

  /** A stored `MeasurementResult`. */
  datatype MeasurementRecord = MeasurementRecord(
    emissionSourceId: int32,
    parameterCode: string,
    measurementDate: DateTime,
    value: Option<Double>,
    unit: Option<string>,
    entryDate: DateTime,
    remark: Option<string>,
    isApproved: bool,
    approvedAt: Option<DateTime>)

  /** One call to the activity logger, with its `inserted`/`total` payload. */
  datatype AuditEvent = AuditEvent(
    action: string,
    entityType: string,
    entityId: string,
    message: string,
    inserted: int,
    total: int)

  /** What a confirm call returns, stores and logs. */
  datatype ConfirmOutcome = ConfirmOutcome(
    result: ServiceResult<ConfirmResponse>,
    written: seq<MeasurementRecord>,
    audit: Option<AuditEvent>)

  const NoRowsSuppliedMessage := "No rows were supplied for import."
  const NothingImportedMessage := "No measurement results were imported because all rows contain validation errors."

  /** The echoed row as a row to validate: it carries no coercion errors, and its approval flag is always set. */
  function InputOf(row: RowRequest): (input: RowInput)
    ensures input.errors == [] && input.isApproved == Some(row.isApproved)
  {
    RowInput(row.rowNumber, row.emissionSourceId, row.parameterCode, row.measurementDate, row.entryDate,
             row.value, row.unit, row.remark, Some(row.isApproved), row.approvedAt, [])
  }

  /** All the echoed rows, validated in order against the snapshot. */
  function Revalidated(rows: seq<RowRequest>, snap: Snapshot, now: DateTime): (previews: seq<RowPreview>)
    ensures |previews| == |rows|
    ensures forall i :: 0 <= i < |rows| ==> previews[i] == ValidatedRow(InputOf(rows[i]), snap, now)
  {
    seq(|rows|, i requires 0 <= i < |rows| => ValidatedRow(InputOf(rows[i]), snap, now))
  }

  /** A preview with the two fields a record cannot do without. */
  predicate Storable(p: RowPreview) {
    p.emissionSourceId.Some? && p.parameterCode.Some?
  }

  /**
   * The record stored for a preview row: the dates fall back to `now` when missing, and an
   * approval time is kept only for an approved row (defaulting to `now`).
   */
  function RecordOf(p: RowPreview, now: DateTime): (r: MeasurementRecord)
    requires Storable(p)
    ensures r.isApproved == p.isApproved && (r.approvedAt.None? <==> !r.isApproved)
  {
    MeasurementRecord(
      p.emissionSourceId.value,
      p.parameterCode.value,
      p.measurementDate.GetOr(now),
      p.value,
      p.unit,
      p.entryDate.GetOr(p.measurementDate.GetOr(now)),
      p.remark,
      p.isApproved,
      if p.isApproved then Some(p.approvedAt.GetOr(now)) else None)
  }

  /** The records for a list of rows, in order. */
  function Records(rows: seq<RowPreview>, now: DateTime): (records: seq<MeasurementRecord>)
    requires forall p :: p in rows ==> Storable(p)
    ensures |records| == |rows|
    ensures forall i :: 0 <= i < |rows| ==> records[i] == RecordOf(rows[i], now)
  {
    seq(|rows|, i requires 0 <= i < |rows| => RecordOf(rows[i], now))
  }

  /** Every row that passes validation can be stored. */
  lemma ValidRowsStorable(rows: seq<RowRequest>, snap: Snapshot, now: DateTime)
    ensures forall p :: p in ValidOnly(Revalidated(rows, snap, now)) ==> Storable(p)
  {
    var previews := Revalidated(rows, snap, now);
    forall p | p in ValidOnly(previews)
      ensures Storable(p)
    {
      var i :| 0 <= i < |previews| && previews[i] == p;
      ValidRowComplete(InputOf(rows[i]), snap, now);
    }
  }

  /** The user-facing message of a confirm that got past the empty check. */
  function ConfirmMessage(inserted: nat, total: nat): string {
    if inserted > 0 then "Imported " + IntString(inserted) + " of " + IntString(total) + " rows."
    else NothingImportedMessage
  }

  /** The audit entry for `inserted` records out of `total` rows. */
  function ImportAudit(inserted: nat, total: nat): AuditEvent {
    AuditEvent("MeasurementResult.Import", "MeasurementResult", "bulk",
               "Imported " + IntString(inserted) + " measurement results.", inserted, total)
  }

  /** The whole confirm outcome for a request (absent when none was sent), the fresh snapshot and the clock reading. */
  function ConfirmOutcomeOf(request: Option<ConfirmRequest>, snap: Snapshot, now: DateTime): ConfirmOutcome {
    if request.None? || request.value.rows == [] then ConfirmOutcome(Fail(NoRowsSuppliedMessage, None), [], None)
    else
      var previews := Revalidated(request.value.rows, snap, now);
      var valid := ValidOnly(previews);
      ValidRowsStorable(request.value.rows, snap, now);
      ConfirmOutcome(
        Ok(ConfirmResponse(|previews|, |valid|, |previews| - |valid|, previews), Some(ConfirmMessage(|valid|, |previews|))),
        Records(valid, now),
        if |valid| > 0 then Some(ImportAudit(|valid|, |previews|)) else None)
  }

  /** The validation loop of `ConfirmAsync`. */
  method RevalidateRows(rows: seq<RowRequest>, snap: Snapshot, now: DateTime) returns (previews: seq<RowPreview>)
    ensures previews == Revalidated(rows, snap, now)
  {
    previews := [];
    for i := 0 to |rows|
      invariant previews == Revalidated(rows[..i], snap, now)
    {
      var preview := ValidateImportRow(InputOf(rows[i]), snap, now);
      previews := previews + [preview];
    }
    assert rows[..|rows|] == rows;
  }

  /** The write loop of `ConfirmAsync`: one record per valid row, in order. */
  method WriteRecords(valid: seq<RowPreview>, now: DateTime) returns (written: seq<MeasurementRecord>)
    requires forall p :: p in valid ==> Storable(p)
    ensures written == Records(valid, now)
  {
    written := [];
    for i := 0 to |valid|
      invariant written == Records(valid[..i], now)
    {
      written := written + [RecordOf(valid[i], now)];
    }
    assert valid[..|valid|] == valid;
  }

  /** `ConfirmAsync`. */
  method ConfirmAsync(request: Option<ConfirmRequest>, snap: Snapshot, now: DateTime) returns (outcome: ConfirmOutcome)
    ensures outcome == ConfirmOutcomeOf(request, snap, now)
  {
    if request.None? || |request.value.rows| == 0 {
      return ConfirmOutcome(Fail(NoRowsSuppliedMessage, None), [], None);
    }
    var rows := request.value.rows;
    var previews := RevalidateRows(rows, snap, now);
    var validRows := ValidOnly(previews);
    var written: seq<MeasurementRecord> := [];
    var audit: Option<AuditEvent> := None;
    if |validRows| > 0 {
      ValidRowsStorable(rows, snap, now);
      written := WriteRecords(validRows, now);
      audit := Some(ImportAudit(|validRows|, |previews|));
    }
    var response := ConfirmResponse(|previews|, |validRows|, |previews| - |validRows|, previews);
    var message := if |validRows| > 0
      then "Imported " + IntString(|validRows|) + " of " + IntString(|previews|) + " rows."
      else NothingImportedMessage;
    return ConfirmOutcome(Ok(response, Some(message)), written, audit);
  }

  /** An absent request or one without rows fails, and nothing is stored or logged. */
  lemma EmptyRequestRejected(request: Option<ConfirmRequest>, snap: Snapshot, now: DateTime)
    requires request.None? || request.value.rows == []
    ensures var o := ConfirmOutcomeOf(request, snap, now);
      !o.result.success && o.result.message == Some(NoRowsSuppliedMessage) && o.written == [] && o.audit.None?
  {
  }

  /**
   * A request with rows always succeeds: every row is validated again, in order, and counted
   * once, as inserted or as failed; exactly one record is stored per inserted row.
   */
  lemma ConfirmCounts(request: ConfirmRequest, snap: Snapshot, now: DateTime)
    requires request.rows != []
    ensures var o := ConfirmOutcomeOf(Some(request), snap, now);
      && o.result.success && o.result.data.Some?
      && var response := o.result.data.value;
      && |response.rows| == response.totalRows == |request.rows|
      && response.insertedRows + response.failedRows == response.totalRows
      && response.insertedRows == CountValid(response.rows) == |o.written|
      && response.failedRows == CountInvalid(response.rows)
      && (forall i :: 0 <= i < |request.rows| ==> response.rows[i] == ValidatedRow(InputOf(request.rows[i]), snap, now))
  {
    CountsPartition(Revalidated(request.rows, snap, now));
  }

  /** Exactly the valid rows are stored, one record each, in order. */
  lemma OnlyValidRowsStored(request: ConfirmRequest, snap: Snapshot, now: DateTime)
    requires request.rows != []
    ensures var valid := ValidOnly(Revalidated(request.rows, snap, now));
      var written := ConfirmOutcomeOf(Some(request), snap, now).written;
      && |written| == |valid|
      && (forall i :: 0 <= i < |valid| ==> valid[i].IsValid() && Storable(valid[i]) && written[i] == RecordOf(valid[i], now))
  {
    var valid := ValidOnly(Revalidated(request.rows, snap, now));
    ValidRowsStorable(request.rows, snap, now);
    assert ConfirmOutcomeOf(Some(request), snap, now).written == Records(valid, now);
    forall i | 0 <= i < |valid|
      ensures valid[i].IsValid()
    {
      assert valid[i] in valid;
    }
  }

  /** Every stored record refers to an emission source and a parameter present in the snapshot. */
  lemma StoredRecordsReferenceSnapshot(request: Option<ConfirmRequest>, snap: Snapshot, now: DateTime)
    ensures forall r :: r in ConfirmOutcomeOf(request, snap, now).written ==>
      r.emissionSourceId in snap.sources && r.parameterCode in snap.parameters
  {
    if request.Some? && request.value.rows != [] {
      var rows := request.value.rows;
      var previews := Revalidated(rows, snap, now);
      var valid := ValidOnly(previews);
      ValidRowsStorable(rows, snap, now);
      var written := Records(valid, now);
      assert ConfirmOutcomeOf(request, snap, now).written == written;
      forall r | r in written
        ensures r.emissionSourceId in snap.sources && r.parameterCode in snap.parameters
      {
        var k :| 0 <= k < |written| && written[k] == r;
        assert valid[k] in previews;
        var i :| 0 <= i < |previews| && previews[i] == valid[k];
        ValidRowComplete(InputOf(rows[i]), snap, now);
      }
    }
  }

  /**
   * With the snapshot read from the parameter table, every stored record's parameter code is the
   * upper-cased code of a parameter that is not deleted.
   */
  lemma StoredRecordsReferenceActiveParameters(request: Option<ConfirmRequest>, snap: Snapshot,
                                               stored: seq<StoredParameter>, now: DateTime)
    requires ParametersFrom(snap, stored)
    ensures forall r :: r in ConfirmOutcomeOf(request, snap, now).written ==>
      exists p :: p in stored && !p.isDeleted && LookupOf(p).code == r.parameterCode
  {
    StoredRecordsReferenceSnapshot(request, snap, now);
    SnapshotParametersFromTable(snap, stored);
  }

  /** The audit entry is logged exactly when something was stored, and it reports the two counts. */
  lemma AuditOnlyWhenInserted(request: Option<ConfirmRequest>, snap: Snapshot, now: DateTime)
    ensures var o := ConfirmOutcomeOf(request, snap, now);
      && (o.audit.Some? <==> |o.written| > 0)
      && (o.audit.Some? ==> o.result.success && o.audit.value.inserted == o.result.data.value.insertedRows
                            && o.audit.value.total == o.result.data.value.totalRows)
      && (o.result.success ==>
            o.result.message == Some(ConfirmMessage(o.result.data.value.insertedRows, o.result.data.value.totalRows)))
  {
  }

  /** A stored record has an approval time exactly when it is approved. */
  lemma ApprovalTimeOnlyWhenApproved(request: Option<ConfirmRequest>, snap: Snapshot, now: DateTime)
    ensures forall r :: r in ConfirmOutcomeOf(request, snap, now).written ==> (r.approvedAt.Some? <==> r.isApproved)
  {
  }

  /**
   * For a row that passed validation the write-time fallbacks to the clock never apply: its
   * record takes both dates and any approval time from the row, whatever the clock says.
   */
  lemma ValidRecordIgnoresClock(input: RowInput, snap: Snapshot, validatedAt: DateTime, writtenAt: DateTime)
    requires ValidatedRow(input, snap, validatedAt).IsValid()
    ensures var p := ValidatedRow(input, snap, validatedAt);
      && Storable(p)
      && RecordOf(p, writtenAt).measurementDate == p.measurementDate.value
      && RecordOf(p, writtenAt).entryDate == p.entryDate.value
      && (p.isApproved ==> RecordOf(p, writtenAt).approvedAt == p.approvedAt)
      && RecordOf(p, writtenAt) == RecordOf(p, validatedAt)
  {
    ValidRowComplete(input, snap, validatedAt);
    ApprovalStamp(input, snap, validatedAt);
  }

  /**
   * A stored record is the echoed row's fields copied over: the code normalised, the
   * measurement date falling back to the entry date and vice versa, unit and remark cleaned.
   */
  lemma RecordCopiesRow(row: RowRequest, snap: Snapshot, now: DateTime)
    requires ValidatedRow(InputOf(row), snap, now).IsValid()
    ensures var p := ValidatedRow(InputOf(row), snap, now);
      Storable(p) && var r := RecordOf(p, now);
      && Some(r.emissionSourceId) == row.emissionSourceId
      && Some(r.parameterCode) == Some(NormalizedCode(row.parameterCode.value))
      && Some(r.measurementDate) == row.measurementDate.OrElse(row.entryDate)
      && Some(r.entryDate) == row.entryDate.OrElse(row.measurementDate)
      && r.value == row.value
      && r.isApproved == row.isApproved
      && (row.isApproved && row.approvedAt.Some? ==> r.approvedAt == row.approvedAt)
      && (!IsNullOrWhiteSpace(row.unit) ==> r.unit == Some(Trim(row.unit.value)))
      && r.remark == CleanText(row.remark)
  {
    ValidRowComplete(InputOf(row), snap, now);
    ValidExactly(InputOf(row), snap, now);
    UnitAndRemark(InputOf(row), snap, now);
  }
}
