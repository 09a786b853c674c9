/**
 * The preview step (`PreviewAsync`): structural checks on the uploaded workbook, then every row
 * between the header and the last used row is coerced and validated, and the outcome counted.
 * Nothing is stored. The reference snapshot, the clock reading and the spreadsheet and parsing
 * behaviour are parameters.
 */
module ImportPreview {
  import opened Wrappers
  import opened ImportModels
  import opened ServiceResults
  import opened Cells
  import opened HeaderMapping
  import opened Coercion
  import opened Validation

  /** The uploaded file: its length in bytes and, once opened, its worksheets in workbook order. */
  datatype UploadedFile = UploadedFile(length: int, worksheets: seq<Worksheet>)

  const NoFileMessage := "Please choose an Excel file to import."
  const NoWorksheetMessage := "The uploaded file does not contain any worksheets."
  const NoHeaderMessage := "The uploaded file is missing a header row."
  const MissingColumnsMessage := "The Excel file must include ParameterCode, Value, and either MeasurementDate or EntryDate columns."
  const NoSourceMessage := "Select an emission source or include an EmissionSourceID column in the Excel file."
  const NoRowsMessage := "The uploaded file does not contain any readable data rows."

  /** The columns a sheet must have: a parameter code, a value and at least one of the two dates. */
  predicate HasMandatoryColumns(headerMap: HeaderMap) {
    ParameterCode in headerMap && Value in headerMap && (MeasurementDate in headerMap || EntryDate in headerMap)
  }

  /** Everything a data row is read against once the structural checks have passed. */
  datatype RowContext = RowContext(
    headerMap: HeaderMap,
    defaultSourceId: Option<int32>,
    snap: Snapshot,
    now: DateTime,
    platform: Platform)

  /** The caller's emission source fills in a row that has none of its own. */
  function WithDefaultSource(input: RowInput, defaultSourceId: Option<int32>): (r: RowInput)
    ensures r.emissionSourceId == input.emissionSourceId.OrElse(defaultSourceId)
    ensures r == input.(emissionSourceId := r.emissionSourceId)
  {
    if input.emissionSourceId.None? && defaultSourceId.Some? then input.(emissionSourceId := defaultSourceId) else input
  }

  /** What worksheet row `rowNumber` contributes: nothing if it is blank or parses to nothing, else its preview. */
  function PreviewOfRow(ws: Worksheet, rowNumber: int, ctx: RowContext): Option<RowPreview> {
    var row := RowAt(ws, rowNumber);
    if RowCompletelyEmpty(row, ctx.headerMap, ctx.platform) then None
    else
      var input := ParsedRow(row, rowNumber, ctx.headerMap, ctx.platform);
      if input.None? then None
      else Some(ValidatedRow(WithDefaultSource(input.value, ctx.defaultSourceId), ctx.snap, ctx.now))
  }

  /** The previews `preview(from)`, ..., `preview(to)` that exist, in row order. */
  function Collect(preview: int -> Option<RowPreview>, from: int, to: int): seq<RowPreview>
    decreases to - from
  {
    if to < from then []
    else
      var earlier := Collect(preview, from, to - 1);
      if preview(to).Some? then earlier + [preview(to).value] else earlier
  }

  /** `PreviewOfRow` for every row number of the sheet. */
  function RowPreviews(ws: Worksheet, ctx: RowContext): int -> Option<RowPreview> {
    n => PreviewOfRow(ws, n, ctx)
  }

  /** The previews of worksheet rows `from` to `to`, in row order. */
  function PreviewRows(ws: Worksheet, from: int, to: int, ctx: RowContext): seq<RowPreview> {
    Collect(RowPreviews(ws, ctx), from, to)
  }

  /** One more row read: its preview, if any, goes at the end. */
  lemma PreviewRowsStep(ws: Worksheet, from: int, to: int, ctx: RowContext, here: Option<RowPreview>)
    requires from <= to && here == PreviewOfRow(ws, to, ctx)
    ensures PreviewRows(ws, from, to, ctx) == PreviewRows(ws, from, to - 1, ctx) + (if here.Some? then [here.value] else [])
  {
    assert RowPreviews(ws, ctx)(to) == here;
  }

  /** The outcome of the structural checks: the failure message, or the sheet, its header row number and its column map. */
  datatype Structure =
    | Rejected(message: string)
    | Accepted(ws: Worksheet, headerRowNumber: int, headerMap: HeaderMap)

  /** The structural checks, in order, before any data row is read. */
  function StructureOf(file: Option<UploadedFile>, defaultSourceId: Option<int32>, snap: Snapshot,
                       platform: Platform): Structure
  {
    if file.None? || file.value.length == 0 then Rejected(NoFileMessage)
    else if file.value.worksheets == [] then Rejected(NoWorksheetMessage)
    else
      var ws := file.value.worksheets[0];
      var header := FirstRowUsed(ws);
      if header.None? then Rejected(NoHeaderMessage)
      else
        var headerMap := HeaderMapOf(RowAt(ws, header.value), platform);
        if !HasMandatoryColumns(headerMap) then Rejected(MissingColumnsMessage)
        else if EmissionSourceId !in headerMap && defaultSourceId.None? then Rejected(NoSourceMessage)
        else if defaultSourceId.Some? && defaultSourceId.value !in snap.sources then
          Rejected(SourceNotFound(defaultSourceId.value).Message())
        else Accepted(ws, header.value, headerMap)
  }

  /** The data rows of an accepted sheet: those after the header row, up to the last used row. */
  function SheetRows(ws: Worksheet, headerRowNumber: int, ctx: RowContext): seq<RowPreview> {
    PreviewRows(ws, headerRowNumber + 1, LastRowUsed(ws).GetOr(headerRowNumber), ctx)
  }

  /** The response for the rows read: a failure when there are none, else the rows and their counts. */
  function ResponseOf(rows: seq<RowPreview>): ServiceResult<PreviewResponse> {
    if rows == [] then Fail(NoRowsMessage, None)
    else Ok(PreviewResponse(rows, |rows|, CountValid(rows), CountInvalid(rows)), None)
  }

  /** The whole preview outcome, given the file, the caller's emission source, the snapshot and the clock reading. */
  function PreviewResultOf(file: Option<UploadedFile>, defaultSourceId: Option<int32>, snap: Snapshot,
                           now: DateTime, platform: Platform): ServiceResult<PreviewResponse>
  {
    match StructureOf(file, defaultSourceId, snap, platform)
    case Rejected(message) => Fail(message, None)
    case Accepted(ws, headerRowNumber, headerMap) =>
      ResponseOf(SheetRows(ws, headerRowNumber, RowContext(headerMap, defaultSourceId, snap, now, platform)))
  }

  /** The structural checks of `PreviewAsync`, each rejecting the file with its own message. */
  method CheckStructure(file: Option<UploadedFile>, defaultSourceId: Option<int32>, snap: Snapshot, platform: Platform)
    returns (s: Structure)
    ensures s == StructureOf(file, defaultSourceId, snap, platform)
  {
    if file.None? || file.value.length == 0 {
      return Rejected(NoFileMessage);
    }
    if file.value.worksheets == [] {
      return Rejected(NoWorksheetMessage);
    }
    var ws := file.value.worksheets[0];
    var headerRow := FirstRowUsed(ws);
    if headerRow.None? {
      return Rejected(NoHeaderMessage);
    }
    var headerMap := BuildImportHeaderMap(RowAt(ws, headerRow.value), platform);
    if !(ParameterCode in headerMap && Value in headerMap && (MeasurementDate in headerMap || EntryDate in headerMap)) {
      return Rejected(MissingColumnsMessage);
    }
    if EmissionSourceId !in headerMap && defaultSourceId.None? {
      return Rejected(NoSourceMessage);
    }
    if defaultSourceId.Some? && defaultSourceId.value !in snap.sources {
      return Rejected(SourceNotFound(defaultSourceId.value).Message());
    }
    return Accepted(ws, headerRow.value, headerMap);
  }

  /** `PreviewAsync`: the structural checks, then the row loop, then the counts. */
  method PreviewAsync(file: Option<UploadedFile>, defaultSourceId: Option<int32>, snap: Snapshot,
                      now: DateTime, platform: Platform) returns (result: ServiceResult<PreviewResponse>)
    ensures result == PreviewResultOf(file, defaultSourceId, snap, now, platform)
  {
    var structure := CheckStructure(file, defaultSourceId, snap, platform);
    if structure.Rejected? {
      return Fail(structure.message, None);
    }
    var ctx := RowContext(structure.headerMap, defaultSourceId, snap, now, platform);
    var previews := ReadRows(structure.ws, structure.headerRowNumber, ctx);
    if |previews| == 0 {
      return Fail(NoRowsMessage, None);
    }
    return Ok(PreviewResponse(previews, |previews|, CountValid(previews), CountInvalid(previews)), None);
  }

  /** The row loop of `PreviewAsync`: every row after the header, up to the last used one. */
  method ReadRows(ws: Worksheet, headerRowNumber: int, ctx: RowContext) returns (previews: seq<RowPreview>)
    ensures previews == SheetRows(ws, headerRowNumber, ctx)
  {
    previews := [];
    var lastRowNumber := LastRowUsed(ws).GetOr(headerRowNumber);
    var rowNumber := headerRowNumber + 1;
    while rowNumber <= lastRowNumber
      invariant headerRowNumber < rowNumber <= if lastRowNumber < headerRowNumber + 1 then headerRowNumber + 1 else lastRowNumber + 1
      invariant previews == PreviewRows(ws, headerRowNumber + 1, rowNumber - 1, ctx)
      decreases lastRowNumber - rowNumber
    {
      var preview := PreviewRow(ws, rowNumber, ctx);
      PreviewRowsStep(ws, headerRowNumber + 1, rowNumber, ctx, preview);
      if preview.Some? {
        previews := previews + [preview.value];
      }
      rowNumber := rowNumber + 1;
    }
  }

  /** The body of the row loop: skip a blank row, parse, fill in the default source, validate. */
  method PreviewRow(ws: Worksheet, rowNumber: int, ctx: RowContext) returns (preview: Option<RowPreview>)
    ensures preview == PreviewOfRow(ws, rowNumber, ctx)
  {
    var row := RowAt(ws, rowNumber);
    var empty := IsRowCompletelyEmpty(row, ctx.headerMap, ctx.platform);
    if empty {
      return None;
    }
    var input := ParseImportRow(row, rowNumber, ctx.headerMap, ctx.platform);
    if input.None? {
      return None;
    }
    var filled := input.value;
    if !filled.emissionSourceId.Some? && ctx.defaultSourceId.Some? {
      filled := filled.(emissionSourceId := ctx.defaultSourceId);
    }
    var p := ValidateImportRow(filled, ctx.snap, ctx.now);
    return Some(p);
  }

  /**
   * A preview only succeeds on a file with a first worksheet whose header row maps the
   * mandatory columns, an emission source from a column or the caller, and a caller's source
   * (when given) that exists; a failed preview carries no data.
   */
  lemma PreviewSucceedsOnlyOnWellFormedSheets(file: Option<UploadedFile>, defaultSourceId: Option<int32>, snap: Snapshot,
                                              now: DateTime, platform: Platform)
    ensures var r := PreviewResultOf(file, defaultSourceId, snap, now, platform);
      && (!r.success ==> r.data.None? && r.message.Some?)
      && (r.success ==>
            && file.Some? && file.value.length != 0 && file.value.worksheets != []
            && FirstRowUsed(file.value.worksheets[0]).Some?
            && var headerMap := HeaderMapOf(RowAt(file.value.worksheets[0], FirstRowUsed(file.value.worksheets[0]).value), platform);
            && HasMandatoryColumns(headerMap)
            && (EmissionSourceId in headerMap || defaultSourceId.Some?)
            && (defaultSourceId.Some? ==> defaultSourceId.value in snap.sources))
  {
  }

  /** A successful preview has at least one row, and every row is counted once, as valid or as invalid. */
  lemma PreviewCounts(file: Option<UploadedFile>, defaultSourceId: Option<int32>, snap: Snapshot,
                      now: DateTime, platform: Platform)
    ensures var r := PreviewResultOf(file, defaultSourceId, snap, now, platform);
      r.success ==>
        && r.data.Some? && |r.data.value.rows| > 0
        && r.data.value.totalRows == |r.data.value.rows| == r.data.value.validRows + r.data.value.invalidRows
        && r.data.value.validRows == CountValid(r.data.value.rows)
  {
    var r := PreviewResultOf(file, defaultSourceId, snap, now, platform);
    if r.success {
      CountsPartition(r.data.value.rows);
    }
  }

  /** Rows `from..to` yield some preview exactly when one of them, taken alone, yields a preview. */
  lemma PreviewRowsNonEmpty(ws: Worksheet, from: int, to: int, ctx: RowContext)
    ensures PreviewRows(ws, from, to, ctx) != [] <==> exists n :: from <= n <= to && PreviewOfRow(ws, n, ctx).Some?
  {
    var rows := PreviewRows(ws, from, to, ctx);
    PreviewRowsOrdered(ws, from, to, ctx);
    PreviewRowsExact(ws, from, to, ctx);
    if rows != [] {
      assert PreviewOfRow(ws, rows[0].rowNumber, ctx).Some?;
    }
  }

  /**
   * A preview succeeds exactly when the sheet passes the structural checks and some row after
   * the header, up to the last used row, yields a preview; rows with errors still count, so a
   * sheet whose rows are all invalid gives a normal preview.
   */
  lemma PreviewSucceedsExactly(file: Option<UploadedFile>, defaultSourceId: Option<int32>, snap: Snapshot,
                               now: DateTime, platform: Platform)
    ensures var s := StructureOf(file, defaultSourceId, snap, platform);
      PreviewResultOf(file, defaultSourceId, snap, now, platform).success <==>
        (s.Accepted? &&
         var ctx := RowContext(s.headerMap, defaultSourceId, snap, now, platform);
         exists n :: s.headerRowNumber < n <= LastRowUsed(s.ws).GetOr(s.headerRowNumber) && PreviewOfRow(s.ws, n, ctx).Some?)
  {
    match StructureOf(file, defaultSourceId, snap, platform)
    case Rejected(_) =>
    case Accepted(ws, headerRowNumber, headerMap) =>
      var ctx := RowContext(headerMap, defaultSourceId, snap, now, platform);
      PreviewRowsNonEmpty(ws, headerRowNumber + 1, LastRowUsed(ws).GetOr(headerRowNumber), ctx);
  }

  /** A previewed row carries its own worksheet row number. */
  lemma PreviewOfRowNumber(ws: Worksheet, rowNumber: int, ctx: RowContext)
    ensures var p := PreviewOfRow(ws, rowNumber, ctx); p.Some? ==> p.value.rowNumber == rowNumber
  {
  }

  /** Each row's preview, if any, carries that row's number. */
  ghost predicate Numbered(preview: int -> Option<RowPreview>) {
    forall n :: preview(n).Some? ==> preview(n).value.rowNumber == n
  }

  /** Collected previews lie in `from..to`, in strictly increasing row order, when each row's preview carries its number. */
  lemma {:induction false} CollectOrdered(preview: int -> Option<RowPreview>, from: int, to: int)
    requires Numbered(preview)
    ensures forall i :: 0 <= i < |Collect(preview, from, to)| ==> from <= Collect(preview, from, to)[i].rowNumber <= to
    ensures forall i, j :: 0 <= i < j < |Collect(preview, from, to)| ==>
      Collect(preview, from, to)[i].rowNumber < Collect(preview, from, to)[j].rowNumber
    decreases if to < from then 0 else to - from + 1
  {
    if from <= to {
      CollectOrdered(preview, from, to - 1);
      var rows := Collect(preview, from, to);
      var earlier := Collect(preview, from, to - 1);
      assert rows == earlier + (if preview(to).Some? then [preview(to).value] else []);
      assert forall i :: 0 <= i < |earlier| ==> rows[i] == earlier[i];
      if preview(to).Some? {
        assert rows[|earlier|] == preview(to).value && preview(to).value.rowNumber == to;
      }
    }
  }

  /** Collected previews are exactly the existing ones: each is its own row's, and each existing one is there. */
  lemma {:induction false} CollectExact(preview: int -> Option<RowPreview>, from: int, to: int)
    requires Numbered(preview)
    decreases if to < from then 0 else to - from + 1
    ensures forall i :: 0 <= i < |Collect(preview, from, to)| ==>
      preview(Collect(preview, from, to)[i].rowNumber) == Some(Collect(preview, from, to)[i])
    ensures forall n :: from <= n <= to && preview(n).Some? ==> preview(n).value in Collect(preview, from, to)
  {
    if from <= to {
      CollectExact(preview, from, to - 1);
      var rows := Collect(preview, from, to);
      var earlier := Collect(preview, from, to - 1);
      assert rows == earlier + (if preview(to).Some? then [preview(to).value] else []);
      assert forall i :: 0 <= i < |earlier| ==> rows[i] == earlier[i];
      if preview(to).Some? {
        assert rows[|earlier|] == preview(to).value && preview(to).value.rowNumber == to;
      }
    }
  }

  /** The previews of rows `from..to` lie in that range, in strictly increasing row order. */
  lemma PreviewRowsOrdered(ws: Worksheet, from: int, to: int, ctx: RowContext)
    ensures var rows := PreviewRows(ws, from, to, ctx);
      && (forall i :: 0 <= i < |rows| ==> from <= rows[i].rowNumber <= to)
      && (forall i, j :: 0 <= i < j < |rows| ==> rows[i].rowNumber < rows[j].rowNumber)
  {
    RowPreviewsNumbered(ws, ctx);
    CollectOrdered(RowPreviews(ws, ctx), from, to);
  }

  /** Each preview of rows `from..to` is its own row's, and every row there that yields a preview has it among them. */
  lemma PreviewRowsExact(ws: Worksheet, from: int, to: int, ctx: RowContext)
    ensures var rows := PreviewRows(ws, from, to, ctx);
      && (forall i :: 0 <= i < |rows| ==> PreviewOfRow(ws, rows[i].rowNumber, ctx) == Some(rows[i]))
      && (forall n :: from <= n <= to && PreviewOfRow(ws, n, ctx).Some? ==> PreviewOfRow(ws, n, ctx).value in rows)
  {
    var preview := RowPreviews(ws, ctx);
    var rows := Collect(preview, from, to);
    RowPreviewsNumbered(ws, ctx);
    CollectExact(preview, from, to);
    assert forall i :: 0 <= i < |rows| ==> preview(rows[i].rowNumber) == Some(rows[i]);
    assert forall n :: from <= n <= to && preview(n).Some? ==> preview(n).value in rows;
  }

  lemma RowPreviewsNumbered(ws: Worksheet, ctx: RowContext)
    ensures Numbered(RowPreviews(ws, ctx))
    ensures forall n :: RowPreviews(ws, ctx)(n) == PreviewOfRow(ws, n, ctx)
  {
    forall n ensures RowPreviews(ws, ctx)(n).Some? ==> RowPreviews(ws, ctx)(n).value.rowNumber == n {
      PreviewOfRowNumber(ws, n, ctx);
    }
  }

  /** A row holding text under a mapped column is always previewed; a row without any is skipped. */
  lemma BlankRowsSkipped(ws: Worksheet, rowNumber: int, ctx: RowContext)
    requires ctx.headerMap != map[]
    ensures PreviewOfRow(ws, rowNumber, ctx).Some? <==> !RowCompletelyEmpty(RowAt(ws, rowNumber), ctx.headerMap, ctx.platform)
  {
    if !RowCompletelyEmpty(RowAt(ws, rowNumber), ctx.headerMap, ctx.platform) {
      NonBlankRowParses(RowAt(ws, rowNumber), rowNumber, ctx.headerMap, ctx.platform);
    }
  }

  /**
   * A successful preview's rows are the previews of the sheet's data rows, the rows after the
   * header row up to the last used row: in increasing row order, none lost and none invented.
   */
  lemma PreviewResultRows(file: Option<UploadedFile>, defaultSourceId: Option<int32>, snap: Snapshot,
                          now: DateTime, platform: Platform)
    requires PreviewResultOf(file, defaultSourceId, snap, now, platform).success
    ensures var s := StructureOf(file, defaultSourceId, snap, platform);
      var result := PreviewResultOf(file, defaultSourceId, snap, now, platform);
      s.Accepted? && result.data.Some? &&
      var rows := result.data.value.rows;
      var ctx := RowContext(s.headerMap, defaultSourceId, snap, now, platform);
      var from, to := s.headerRowNumber + 1, LastRowUsed(s.ws).GetOr(s.headerRowNumber);
      && rows != []
      && (forall i :: 0 <= i < |rows| ==>
            from <= rows[i].rowNumber <= to && PreviewOfRow(s.ws, rows[i].rowNumber, ctx) == Some(rows[i]))
      && (forall i, j :: 0 <= i < j < |rows| ==> rows[i].rowNumber < rows[j].rowNumber)
      && (forall n :: from <= n <= to && PreviewOfRow(s.ws, n, ctx).Some? ==> PreviewOfRow(s.ws, n, ctx).value in rows)
  {
    match StructureOf(file, defaultSourceId, snap, platform)
    case Accepted(ws, headerRowNumber, headerMap) =>
      var ctx := RowContext(headerMap, defaultSourceId, snap, now, platform);
      var from, to := headerRowNumber + 1, LastRowUsed(ws).GetOr(headerRowNumber);
      PreviewRowsOrdered(ws, from, to, ctx);
      PreviewRowsExact(ws, from, to, ctx);
    case Rejected(_) =>
  }

  /**
   * The caller's emission source is used only for rows without one of their own; with it
   * given, every previewed row has a source.
   */
  lemma DefaultSourceOnlyFills(ws: Worksheet, rowNumber: int, ctx: RowContext)
    requires PreviewOfRow(ws, rowNumber, ctx).Some?
    ensures var own := ParsedRow(RowAt(ws, rowNumber), rowNumber, ctx.headerMap, ctx.platform).value.emissionSourceId;
      && PreviewOfRow(ws, rowNumber, ctx).value.emissionSourceId == own.OrElse(ctx.defaultSourceId)
      && (own.Some? ==> PreviewOfRow(ws, rowNumber, ctx).value.emissionSourceId == own)
      && (ctx.defaultSourceId.Some? ==> PreviewOfRow(ws, rowNumber, ctx).value.emissionSourceId.Some?)
  {
  }
}
