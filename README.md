# Measurement import: a Dafny model

This project models the spreadsheet import of measurement results in the environmental-analysis
web application. `MeasurementImportService` handles imports in two steps:

* **Preview** (`PreviewAsync`) reads the first worksheet of an uploaded workbook. It runs these
  checks, in this order:
  * the file is present;
  * the workbook has a worksheet;
  * the worksheet has a header row;
  * the mandatory columns are present;
  * an emission source is available.

  Preview then resolves free-text column titles to nine canonical fields. Each data row is
  coerced from its cells. Completely blank rows are skipped. Each remaining row is validated
  against a snapshot of the emission sources and parameters. The result is the list of row
  previews with their counts.
* **Confirm** (`ConfirmAsync`) validates the echoed rows again against a fresh snapshot. It
  stores one measurement record per valid row and logs one audit entry when anything was
  stored.

Supporting parts are modelled too:

* the `ServiceResult<T>` factory;
* the `Parameter` entity, whose `Type` setter normalises its value;
* `ParameterTypeHelper`.

Modules, one per file:

| module | file | models |
|---|---|---|
| `Wrappers` | wrappers.dfy | `Option` |
| `Text` | text.dfy | the .NET string operations used: `IsNullOrWhiteSpace`, `Trim`, invariant case mapping, `char.IsLetterOrDigit`, integer formatting |
| `ParameterTypes` | parameter_types.dfy | `ParameterTypeHelper` |
| `ServiceResults` | service_result.dfy | `ServiceResult<T>` |
| `Parameters` | parameter.dfy | the `Parameter` entity, as a class whose `Type` setter normalises |
| `ImportModels` | import_models.dfy | request, response and row-preview types; row errors |
| `Cells` | cells.dfy | worksheets, rows and cells, and the parsing services of the platform |
| `HeaderMapping` | header_mapping.dfy | `NormalizeImportHeader`, `BuildImportHeaderMap` |
| `Coercion` | coercion.dfy | the `TryGet…Value` helpers, `IsRowCompletelyEmpty`, `ParseImportRow` |
| `Validation` | validation.dfy | `ValidateImportRow`, the reference-data snapshot |
| `ImportPreview` | preview.dfy | `PreviewAsync` |
| `ImportConfirm` | confirm.dfy | `ConfirmAsync` |

Each method with loops or step-by-step updates is proved equal to a specification function. The
properties are proved about those functions:

* `ParseImportRow` is proved against `ParsedRow`.
* `ValidateImportRow` is proved against `ValidatedRow`.
* `PreviewAsync` is proved against `PreviewResultOf`.
* `ConfirmAsync` is proved against `ConfirmOutcomeOf`.

Some inputs are not values in C#; the model passes them in instead:

* Database reads are a `Snapshot`: two maps, holding the emission sources and the parameters
  that are not deleted. `ParametersFrom` ties the parameter map to the stored parameter rows it
  is read from; the lemmas that need the map's shape take it as a precondition.
* Every `DateTime.UtcNow` reading is a parameter `now`.
* The culture-dependent parsers and the spreadsheet library's cell conversions are fields of a
  `Platform` value.
* `ConfirmAsync` returns the records it would add and the audit entry it would log, next to its
  service result.

## Model

| member | source | states |
|---|---|---|
| ServiceResults.Ok | env-analysis-project/Services/ServiceResult.cs:21-22 | a success carries the data and the optional message, and no error list |
| ServiceResults.Fail | env-analysis-project/Services/ServiceResult.cs:24-25 | a failure carries no data, the message, and the given error list |
| ServiceResults.FromFactoryIsFactoryMade | env-analysis-project/Services/ServiceResult.cs:8-25 | the private constructor is only reached through the two factories: every result whose shape is one of theirs equals `Ok` or `Fail` of its own fields |
| ParameterTypes.Normalize | env-analysis-project/Models/ParameterTypeHelper.cs:7-16 | null or blank gives "water"; otherwise the trimmed, lower-cased text if it is "air" or "water", else "water"; the result is always a category |
| ParameterTypes.IsValidExactlyCategory | env-analysis-project/Models/ParameterTypeHelper.cs:7-21 | `IsValid` holds exactly when the trimmed, lower-cased text is a category; then `Normalize` returns that text, otherwise "water" |
| ParameterTypes.NormalizeIdempotent | env-analysis-project/Models/ParameterTypeHelper.cs:7-16 | normalising a normalised type changes nothing |
| ParameterTypes.NormalizeCategory | env-analysis-project/Models/ParameterTypeHelper.cs:14-15 | "air" and "water" are kept as they are |
| ParameterTypes.NormalizePaddedUpper | env-analysis-project/Models/ParameterTypeHelper.cs:14-15 | " AIR " normalises to "air" |
| ParameterTypes.NormalizeWords | env-analysis-project/Models/ParameterTypeHelper.cs:14-15 | "Water" gives "water"; an unknown word such as "soil" falls back to "water" |
| ParameterTypes.NormalizeBlank | env-analysis-project/Models/ParameterTypeHelper.cs:9-12 | null and blank text give "water" |
| Parameters.Parameter.constructor | env-analysis-project/Models/Parameter.cs:24 | a new parameter's type is "water" |
| Parameters.Parameter.Type | env-analysis-project/Models/Parameter.cs:27-29 | the stored type is always "air" or "water" |
| Parameters.Parameter.SetType | env-analysis-project/Models/Parameter.cs:30 | the setter stores `Normalize(value)`; no other field changes |
| Parameters.ReassigningTypeKeepsIt | env-analysis-project/Models/Parameter.cs:27-31 | reading the type and assigning it back leaves it unchanged |
| ImportModels.RowPreview.ErrorMessages | env-analysis-project/Models/MeasurementImportModels.cs:56 | the row's error texts: one per error, in order, each that error's message |
| ImportModels.RowPreview.AddError | env-analysis-project/Models/MeasurementImportModels.cs:56-57 | adding an error appends it, and the row is no longer valid |
| ImportModels.ValidOnly | env-analysis-project/Services/MeasurementImportService.cs:185 | the valid rows: only input rows that are valid, every valid input row among them, counted by `CountValid` |
| ImportModels.ValidOnlyAppend | env-analysis-project/Services/MeasurementImportService.cs:185 | filtering works piecewise, so the valid rows keep their input order |
| ImportModels.ValidOnlyMultiplicity | env-analysis-project/Services/MeasurementImportService.cs:185 | each valid row is kept as many times as it occurs in the input; no invalid row is kept |
| ImportModels.CountsPartition | env-analysis-project/Services/MeasurementImportService.cs:125-131 | valid plus invalid rows add up to all rows |
| Cells.CellAt | env-analysis-project/Services/MeasurementImportService.cs:278 | a column outside the row reads as a blank cell |
| Cells.FirstRowUsed | env-analysis-project/Services/MeasurementImportService.cs:49-53 | the header row is the first non-empty row; every row before it is empty |
| Cells.LastRowUsed | env-analysis-project/Services/MeasurementImportService.cs:94 | the last non-empty row; every row after it is empty |
| Cells.UsedRowsOrdered | env-analysis-project/Services/MeasurementImportService.cs:92-96 | a sheet has a first used row exactly when it has a last one, and the first is not after the last |
| HeaderMapping.FieldIndex | env-analysis-project/Services/MeasurementImportService.cs:245-266 | every canonical field appears in the field list |
| HeaderMapping.SynonymOf | env-analysis-project/Services/MeasurementImportService.cs:254-265 | a sanitised title resolves to a field exactly when it is one of that field's synonyms, so to at most one field |
| HeaderMapping.Sanitize | env-analysis-project/Services/MeasurementImportService.cs:252 | the sanitised title holds only letters and digits, and no upper-case ASCII letter |
| Text.LettersAndDigits | env-analysis-project/Services/MeasurementImportService.cs:252 | the filter keeps only letters and digits, and leaves a title made of letters and digits as it is |
| Text.LettersAndDigitsAppend | env-analysis-project/Services/MeasurementImportService.cs:252 | filtering works piecewise, so letters and digits keep their order |
| Text.LettersAndDigitsDrop | env-analysis-project/Services/MeasurementImportService.cs:252 | removing a character that is not a letter or digit does not change the filtered text |
| HeaderMapping.SanitizeIgnoresCase | env-analysis-project/Services/MeasurementImportService.cs:252 | titles equal up to case have the same sanitised form |
| HeaderMapping.SanitizeIgnoresSeparators | env-analysis-project/Services/MeasurementImportService.cs:252 | a space or punctuation character anywhere in a title does not change its sanitised form |
| HeaderMapping.NormalizeImportHeader | env-analysis-project/Services/MeasurementImportService.cs:245-266 | null gives no field; otherwise a title maps to a field exactly when its sanitised form is one of that field's synonyms |
| HeaderMapping.NormalizeBySanitizing | env-analysis-project/Services/MeasurementImportService.cs:247-252 | the blank-title shortcut agrees with sanitising: a title resolves as its sanitised form does |
| HeaderMapping.HeaderVariantsAgree | env-analysis-project/Services/MeasurementImportService.cs:245-266 | titles with the same sanitised form resolve to the same field |
| HeaderMapping.HeaderIgnoresCase | env-analysis-project/Services/MeasurementImportService.cs:245-266 | titles equal up to case resolve to the same field |
| HeaderMapping.HeaderIgnoresSeparators | env-analysis-project/Services/MeasurementImportService.cs:245-266 | dropping a space or punctuation character from a title does not change the field it resolves to |
| HeaderMapping.SpacedTitleResolves | env-analysis-project/Services/MeasurementImportService.cs:245-266 | "Source ID" resolves to the emission-source field |
| HeaderMapping.HeaderKeys | env-analysis-project/Services/MeasurementImportService.cs:233-240 | each header cell's field: none for an empty cell, else its title resolved |
| HeaderMapping.MappedWhenSeen | env-analysis-project/Services/MeasurementImportService.cs:233-242 | after any number of cells, a field is in the map exactly when one of those cells resolves to it |
| HeaderMapping.MappedToLastColumn | env-analysis-project/Services/MeasurementImportService.cs:233-242 | each mapped field holds the number of the last cell so far that resolves to it |
| HeaderMapping.HeaderMapFields | env-analysis-project/Services/MeasurementImportService.cs:230-243 | a field is in a header row's map exactly when one of its cells resolves to it |
| HeaderMapping.HeaderMapLastWins | env-analysis-project/Services/MeasurementImportService.cs:230-243 | each mapped field holds the 1-based number of its last column; no later column resolves to it |
| HeaderMapping.BuildImportHeaderMap | env-analysis-project/Services/MeasurementImportService.cs:230-243 | the cell loop builds exactly the header map |
| Coercion.FromAttempt | env-analysis-project/Services/MeasurementImportService.cs:404-564 | a parse attempt on a present cell either gives the value or marks the cell malformed, never absent |
| Coercion.TryGetStringValue | env-analysis-project/Services/MeasurementImportService.cs:380-402 | a value exists exactly when the column is mapped and its cell holds non-blank text |
| Coercion.StringCoercion | env-analysis-project/Services/MeasurementImportService.cs:380-402 | that value is the cell's trimmed text, and it is never empty |
| Coercion.TryGetIntValue | env-analysis-project/Services/MeasurementImportService.cs:404-435 | absent exactly when the column is unmapped or its cell is empty |
| Coercion.IntCoercion | env-analysis-project/Services/MeasurementImportService.cs:404-435 | a numeric cell is rounded to an integer; otherwise the invariant-culture parse, then the current-culture one; malformed when both fail |
| Coercion.TryGetDoubleValue | env-analysis-project/Services/MeasurementImportService.cs:437-468 | absent exactly when the column is unmapped or its cell is empty |
| Coercion.DoubleCoercion | env-analysis-project/Services/MeasurementImportService.cs:437-468 | a numeric cell as it is; otherwise the invariant-culture parse, then the current-culture one; malformed when both fail |
| Coercion.ParseBooleanText | env-analysis-project/Services/MeasurementImportService.cs:492-515 | "true"/"false" in any case; else an integer, true when non-zero; else "yes"/"no" in any case |
| Coercion.TryGetBooleanValue | env-analysis-project/Services/MeasurementImportService.cs:470-518 | absent exactly when the column is unmapped or its cell is empty |
| Coercion.BooleanCoercion | env-analysis-project/Services/MeasurementImportService.cs:470-518 | a boolean cell as it is; otherwise its trimmed text as above; malformed otherwise |
| Coercion.TryGetDateValue | env-analysis-project/Services/MeasurementImportService.cs:520-564 | absent exactly when the column is unmapped or its cell is empty |
| Coercion.DateCoercion | env-analysis-project/Services/MeasurementImportService.cs:520-564 | a date cell as it is; else an invariant-culture date, a current-culture date, then a number read as a spreadsheet date serial; malformed when all fail |
| Coercion.CoercionErrorsExact | env-analysis-project/Services/MeasurementImportService.cs:288-378 | a typed field's "is invalid" error is reported exactly when its cell is malformed |
| Coercion.InChain | env-analysis-project/Services/MeasurementImportService.cs:293-375 | an error is among the six conditional coercion errors exactly when its own condition holds |
| Coercion.MalformedFieldEmpty | env-analysis-project/Services/MeasurementImportService.cs:288-378 | a row with a malformed typed cell is still read, and that field is left empty |
| Coercion.AnyPresentOfCells | env-analysis-project/Services/MeasurementImportService.cs:291-377 | a row carries something exactly when at least one field read gave a value or an error |
| Coercion.AnyPresentOfField | env-analysis-project/Services/MeasurementImportService.cs:291-377 | one present field is enough for the row to count |
| Coercion.IsRowCompletelyEmpty | env-analysis-project/Services/MeasurementImportService.cs:268-286 | with no mapped columns, the row is empty when all its cells are; otherwise it is empty when no mapped cell holds non-blank text |
| Coercion.NonBlankRowParses | env-analysis-project/Services/MeasurementImportService.cs:268-378 | a row that is not completely empty is always read |
| Coercion.TakeCoerced | env-analysis-project/Services/MeasurementImportService.cs:293-375 | one typed field's read: its value, its "is invalid" error when malformed, and whether anything was present |
| Coercion.TakeText | env-analysis-project/Services/MeasurementImportService.cs:304-353 | one text field's read: its value, and whether anything was present |
| Coercion.ParseImportRow | env-analysis-project/Services/MeasurementImportService.cs:288-378 | reading a row is `ParsedRow`: every field's coerced value and errors, and no row when nothing was present |
| Validation.LookupOf | env-analysis-project/Services/MeasurementImportService.cs:81-90 | a stored parameter's lookup entry: the code upper-cased character by character, the name and unit copied, the raw stored type normalised to "air" or "water"; a type stored as a category is kept |
| Validation.ActiveLookups | env-analysis-project/Services/MeasurementImportService.cs:81-90 | a lookup is read exactly when it is the entry of a parameter that is not deleted |
| Validation.CodeDictionary | env-analysis-project/Services/MeasurementImportService.cs:81-90 | the dictionary exists exactly when the codes are distinct; then it holds every lookup under its own code and nothing else |
| Validation.SnapshotParametersFromTable | env-analysis-project/Services/MeasurementImportService.cs:81-90 | a snapshot read from the table holds each active parameter under its upper-cased code and nothing else; every type in it is a category |
| Validation.ValidatedTypeFromTable | env-analysis-project/Services/MeasurementImportService.cs:603-624 | a row gets a parameter type exactly when an active parameter's upper-cased code is the row's normalised code; the type is that parameter's stored type normalised |
| Validation.CleanText | env-analysis-project/Services/MeasurementImportService.cs:579-580 | none exactly for null or blank text; otherwise non-empty, with no white space at either end |
| Validation.FoundParameter | env-analysis-project/Services/MeasurementImportService.cs:603-624 | a parameter is found exactly when the code is non-blank and its trimmed, upper-cased form is known |
| Validation.CopyErrors | env-analysis-project/Services/MeasurementImportService.cs:585-588 | the row's coercion errors are copied over in order |
| Validation.CheckSource | env-analysis-project/Services/MeasurementImportService.cs:590-601 | adds "required" for a missing source id and "not found" for an unknown one; a known source's name is filled in; nothing else changes |
| Validation.CheckParameter | env-analysis-project/Services/MeasurementImportService.cs:603-624 | adds "required" for a blank code and "not found" for an unknown one; stores the normalised code; fills in name, type and missing unit from the known parameter |
| Validation.ApplyDates | env-analysis-project/Services/MeasurementImportService.cs:626-639 | each date falls back to the other; the entry date falls back to the clock; "required" is added when neither is given |
| Validation.CheckValueAndApproval | env-analysis-project/Services/MeasurementImportService.cs:641-649 | adds "required" for a missing value; an approved row without an approval time gets the clock reading |
| Validation.ValidateImportRow | env-analysis-project/Services/MeasurementImportService.cs:566-652 | validating a row is `ValidatedRow` |
| Validation.ValidExactly | env-analysis-project/Services/MeasurementImportService.cs:566-652 | a row is valid exactly when it has no coercion error, a known source, a known non-blank code, at least one date and a value |
| Validation.SourceCheckExact | env-analysis-project/Services/MeasurementImportService.cs:590-601 | "source required" is reported exactly when the id is missing, and "not found" exactly when it is unknown, whatever else is wrong |
| Validation.ParameterCheckExact | env-analysis-project/Services/MeasurementImportService.cs:603-624 | "code required" is reported exactly when the code is blank, and "not found", with the normalised code, exactly when it is unknown |
| Validation.DateAndValueChecksExact | env-analysis-project/Services/MeasurementImportService.cs:626-644 | "date required" is reported exactly when both dates are missing, and "value required" exactly when the value is |
| Validation.CoercionErrorsFirst | env-analysis-project/Services/MeasurementImportService.cs:585-644 | the coercion errors come first, unchanged, and validation adds at most four |
| Validation.DateDefaults | env-analysis-project/Services/MeasurementImportService.cs:626-639 | a given date is kept; a single date fills both; with none, the entry date is the clock reading and the row is invalid |
| Validation.ApprovalStamp | env-analysis-project/Services/MeasurementImportService.cs:646-649 | approved exactly when the flag is true; an approved row always has an approval time, `now` when none is given; a given time is kept |
| Validation.UnitAndRemark | env-analysis-project/Services/MeasurementImportService.cs:579-622 | a given unit is trimmed; a missing unit takes the known parameter's; a remark is trimmed, and blank becomes none |
| Validation.ValidRowComplete | env-analysis-project/Services/MeasurementImportService.cs:566-652 | a valid row has a known source with its name, a known code with its type, both dates and a value |
| Validation.MalformedValueReportedTwice | env-analysis-project/Services/MeasurementImportService.cs:641-644 | a malformed value cell yields both "Value is invalid." and "Value is required." |
| ImportPreview.WithDefaultSource | env-analysis-project/Services/MeasurementImportService.cs:108-111 | the caller's source fills in a missing source id; nothing else changes |
| ImportPreview.CheckStructure | env-analysis-project/Services/MeasurementImportService.cs:34-79 | the structural checks, in source order, each failing with its own message |
| ImportPreview.ReadRows | env-analysis-project/Services/MeasurementImportService.cs:92-117 | the row loop yields the previews of rows after the header up to the last used row |
| ImportPreview.PreviewRow | env-analysis-project/Services/MeasurementImportService.cs:98-116 | one row: skipped when empty or unreadable; otherwise read, given the default source, and validated |
| ImportPreview.PreviewAsync | env-analysis-project/Services/MeasurementImportService.cs:32-139 | the whole preview is `PreviewResultOf` |
| ImportPreview.PreviewSucceedsOnlyOnWellFormedSheets | env-analysis-project/Services/MeasurementImportService.cs:34-79 | failures carry a message and no data; success implies a non-empty file, a worksheet, a header row, the mandatory columns, a source column or a default, and a known default |
| ImportPreview.PreviewSucceedsExactly | env-analysis-project/Services/MeasurementImportService.cs:92-133 | a preview succeeds exactly when the structural checks pass and some row after the header, up to the last used row, yields a preview, whether or not that row is valid |
| ImportPreview.PreviewCounts | env-analysis-project/Services/MeasurementImportService.cs:119-133 | success has at least one row; total = rows = valid + invalid; valid is the count of valid rows |
| ImportPreview.PreviewOfRowNumber | env-analysis-project/Services/MeasurementImportService.cs:92-116 | a row's preview carries that row's number |
| ImportPreview.CollectOrdered | env-analysis-project/Services/MeasurementImportService.cs:96-117 | rows read in order give previews inside the range, in strictly increasing row order |
| ImportPreview.CollectExact | env-analysis-project/Services/MeasurementImportService.cs:96-117 | each collected preview is its own row's, and every row that has a preview contributes it |
| ImportPreview.RowPreviewsNumbered | env-analysis-project/Services/MeasurementImportService.cs:92-116 | the per-row preview keeps row numbers |
| ImportPreview.PreviewRowsOrdered | env-analysis-project/Services/MeasurementImportService.cs:96-117 | a sheet's previews lie between the first data row and the last used row, in strictly increasing order |
| ImportPreview.PreviewRowsNonEmpty | env-analysis-project/Services/MeasurementImportService.cs:96-123 | a range of rows gives some preview exactly when one of its rows yields a preview |
| ImportPreview.PreviewRowsExact | env-analysis-project/Services/MeasurementImportService.cs:96-117 | a sheet's previews are exactly those of its previewable rows: none lost, none invented |
| ImportPreview.PreviewResultRows | env-analysis-project/Services/MeasurementImportService.cs:92-133 | a successful preview's rows are the previews of the rows after the header up to the last used row: non-empty, in increasing row order, none lost and none invented |
| ImportPreview.BlankRowsSkipped | env-analysis-project/Services/MeasurementImportService.cs:98-108 | with mapped columns, a row is previewed exactly when it is not completely empty |
| ImportPreview.DefaultSourceOnlyFills | env-analysis-project/Services/MeasurementImportService.cs:108-111 | the caller's source is used only when the row has none; with a default, every preview has a source |
| ImportConfirm.InputOf | env-analysis-project/Services/MeasurementImportService.cs:167-179 | an echoed row is validated with no coercion errors and its approval flag set |
| ImportConfirm.Revalidated | env-analysis-project/Services/MeasurementImportService.cs:164-183 | one preview per echoed row, in order, each validated against the fresh snapshot |
| ImportConfirm.RecordOf | env-analysis-project/Services/MeasurementImportService.cs:189-200 | the record keeps the approval flag, and has an approval time exactly when approved |
| ImportConfirm.Records | env-analysis-project/Services/MeasurementImportService.cs:187-203 | one record per valid row, in order |
| ImportConfirm.ValidRowsStorable | env-analysis-project/Services/MeasurementImportService.cs:185-193 | every valid row has the source id and code the record needs |
| ImportConfirm.RevalidateRows | env-analysis-project/Services/MeasurementImportService.cs:164-183 | the validation loop yields `Revalidated` |
| ImportConfirm.WriteRecords | env-analysis-project/Services/MeasurementImportService.cs:187-203 | the write loop yields `Records` |
| ImportConfirm.ConfirmAsync | env-analysis-project/Services/MeasurementImportService.cs:141-228 | the whole confirm is `ConfirmOutcomeOf` |
| ImportConfirm.EmptyRequestRejected | env-analysis-project/Services/MeasurementImportService.cs:143-146 | a missing or empty request fails with its message, stores nothing and logs nothing |
| ImportConfirm.ConfirmCounts | env-analysis-project/Services/MeasurementImportService.cs:164-221 | a request with rows succeeds; each row is validated again, in order; total = rows = inserted + failed; inserted = valid rows = records stored |
| ImportConfirm.OnlyValidRowsStored | env-analysis-project/Services/MeasurementImportService.cs:185-204 | the i-th record is the record of the i-th row `ValidOnly` keeps, and every such row is valid and storable; `ValidOnlyAppend` and `ValidOnlyMultiplicity` say which rows those are and in what order |
| ImportConfirm.StoredRecordsReferenceSnapshot | env-analysis-project/Services/MeasurementImportService.cs:148-204 | every stored record refers to a non-deleted source and a known parameter |
| ImportConfirm.StoredRecordsReferenceActiveParameters | env-analysis-project/Services/MeasurementImportService.cs:148-204 | with the snapshot read from the table, every stored record's code is the upper-cased code of a parameter that is not deleted |
| ImportConfirm.AuditOnlyWhenInserted | env-analysis-project/Services/MeasurementImportService.cs:206-227 | the audit entry is logged exactly when something was stored, with the inserted and total counts; the message matches |
| ImportConfirm.ApprovalTimeOnlyWhenApproved | env-analysis-project/Services/MeasurementImportService.cs:198-199 | a stored record has an approval time exactly when it is approved |
| ImportConfirm.ValidRecordIgnoresClock | env-analysis-project/Services/MeasurementImportService.cs:189-200 | for a valid row the write-time clock fallbacks never apply: both dates and any approval time come from the row |
| ImportConfirm.RecordCopiesRow | env-analysis-project/Services/MeasurementImportService.cs:164-200 | a stored record copies the echoed row: source id, normalised code, each date falling back to the other, value, approval, trimmed unit, cleaned remark |

## Left out

- The `catch` in `PreviewAsync` (an unreadable workbook, or any exception) is not modelled. The workbook is given as already-read worksheets.
- Database access is not modelled. Queries are a `Snapshot` of maps, holding only the sources and parameters that are not deleted. The writes and the audit call are returned rather than performed, and `SaveChangesAsync` failures are not modelled.
- A repeated parameter code makes `ToDictionaryAsync` throw, for example on two codes that differ only in case. `CodeDictionary` gives `None` for it; the exception that then ends the request is not modelled further. The emission-source dictionary is keyed by the table's primary key, so it cannot repeat a key.
- Culture-dependent parsing and the spreadsheet library's cell conversions are oracle fields of `Platform`. These are number, date and boolean parsing, `GetString` display text, `FromOADate` and rounding to `int`.
- Coercion.IntCoercion: does not model the overflow of rounding a large number to `int`; the rounding is an oracle.
- `double` arithmetic and `DateTime.Kind` are not modelled. Values are bit patterns and dates are tick counts.
- Each call reads `DateTime.UtcNow` through one parameter `now`. The source reads the clock separately per row and per field.
- Text handling is ASCII only:
  - case mapping changes only ASCII letters;
  - every non-ASCII, non-white-space character counts as a letter or digit;
  - `string.Equals` with `OrdinalIgnoreCase` is modelled as ASCII case folding;
  - the culture-sensitive `ToUpper` of the parameter snapshot is modelled like `ToUpperInvariant`.
- `bool.TryParse` also accepts trailing null characters and surrounding white space. The model compares the trimmed text only.
- A `null` request row list is treated as empty; both fail with the same message.
- `IsRowCompletelyEmpty` visits the map's columns through the list of the nine fields instead of `headerMap.Values.Distinct()`. Each column resolves to at most one field, so the columns visited are the same.
- Row errors are a datatype. `RowError.Message` gives each error's text, and `RowPreview.ErrorMessages` gives the row's `Errors` list.
- Validation.DateDefaults: it states that a row with no date at all is invalid, but not the converse, because the row's errors may contain anything else.
- Validation.SourceCheckExact, Validation.ParameterCheckExact, Validation.DateAndValueChecksExact: they assume the row's incoming errors are coercion errors, which is what `ParseImportRow` produces. A hand-made row could already carry validation errors.
- The controllers, the JavaScript front end and the other entities are not part of this model.
