/**
 * Worksheets as the import engine sees them through the spreadsheet library: rows of cells,
 * 1-based row and column numbers, and the library and runtime decisions the engine delegates
 * (native cell conversions, display text, culture-dependent parsers, rounding, date serials),
 * which are left uninterpreted in `Platform`.
 */
module Cells {
  import opened Wrappers
  import opened Text
  import opened ImportModels

  datatype Cell =
    | Blank
    | NumberCell(number: Double)
    | BooleanCell(flag: bool)
    | TextCell(text: string)
    | DateCell(date: DateTime)

  /** Column c of a row is at index c - 1; cells past the end are blank. */
  type Row = seq<Cell>

  /** Row n of a worksheet is at index n - 1. */
  type Worksheet = seq<Row>

  /** What the spreadsheet library and the .NET runtime decide, taken as given functions. */
  datatype Platform = Platform(
    cellAsNumber: Cell -> Option<Double>,      // cell.TryGetValue(out double)
    cellAsDate: Cell -> Option<DateTime>,      // cell.TryGetValue(out DateTime)
    display: Cell -> string,                   // cell.GetString() of a number, boolean or date cell
    intInvariant: string -> Option<int32>,     // int.TryParse, NumberStyles.Integer, invariant culture
    intCurrent: string -> Option<int32>,       // int.TryParse, NumberStyles.Integer, current culture
    doubleInvariant: string -> Option<Double>, // double.TryParse, Float | AllowThousands, invariant culture
    doubleCurrent: string -> Option<Double>,   // double.TryParse, Float | AllowThousands, current culture
    doubleFloatInvariant: string -> Option<Double>, // double.TryParse, Float, invariant culture
    dateInvariant: string -> Option<DateTime>, // DateTime.TryParse, AllowWhiteSpaces, invariant culture
    dateCurrent: string -> Option<DateTime>,   // DateTime.TryParse, AllowWhiteSpaces, current culture
    fromOADate: Double -> Option<DateTime>,    // DateTime.FromOADate; None where it throws
    roundToInt32: Double -> int32)             // (int)Math.Round(x)

  /** `cell.IsEmpty()`: no value, or an empty text. */
  predicate IsEmptyCell(c: Cell) {
    c.Blank? || (c.TextCell? && c.text == [])
  }

  /** `cell.GetString()`. */
  function GetString(c: Cell, platform: Platform): string {
    match c
    case Blank => ""
    case TextCell(s) => s
    case _ => platform.display(c)
  }

  /** `row.Cell(column)`. */
  function CellAt(row: Row, column: int): (c: Cell)
    ensures !(1 <= column <= |row|) ==> c == Blank
  {
    if 1 <= column <= |row| then row[column - 1] else Blank
  }

  /** `row.IsEmpty()`. */
  predicate RowIsEmpty(row: Row) {
    forall j :: 0 <= j < |row| ==> IsEmptyCell(row[j])
  }

  /** `worksheet.Row(n)`; rows past the last one stored are empty. */
  function RowAt(ws: Worksheet, n: int): Row {
    if 1 <= n <= |ws| then ws[n - 1] else []
  }

  function FirstUsedFrom(ws: Worksheet, i: nat): (r: Option<int>)
    requires i <= |ws|
    ensures r.Some? ==> i < r.value <= |ws| && !RowIsEmpty(RowAt(ws, r.value))
    ensures forall n :: i < n <= |ws| && (r.None? || n < r.value) ==> RowIsEmpty(RowAt(ws, n))
    decreases |ws| - i
  {
    if i == |ws| then None
    else if !RowIsEmpty(ws[i]) then Some(i + 1)
    else FirstUsedFrom(ws, i + 1)
  }

  /** `worksheet.FirstRowUsed()?.RowNumber()`: the first row holding a value, if any. */
  function FirstRowUsed(ws: Worksheet): (r: Option<int>)
    ensures r.Some? ==> 1 <= r.value <= |ws| && !RowIsEmpty(RowAt(ws, r.value))
    ensures forall n :: 1 <= n <= |ws| && (r.None? || n < r.value) ==> RowIsEmpty(RowAt(ws, n))
  {
    FirstUsedFrom(ws, 0)
  }

  function LastUsedUpTo(ws: Worksheet, k: nat): (r: Option<int>)
    requires k <= |ws|
    ensures r.Some? ==> 1 <= r.value <= k && !RowIsEmpty(RowAt(ws, r.value))
    ensures forall n :: 1 <= n <= k && (r.None? || r.value < n) ==> RowIsEmpty(RowAt(ws, n))
  {
    if k == 0 then None
    else if !RowIsEmpty(ws[k - 1]) then Some(k)
    else LastUsedUpTo(ws, k - 1)
  }

  /** `worksheet.LastRowUsed()?.RowNumber()`: the last row holding a value, if any. */
  function LastRowUsed(ws: Worksheet): (r: Option<int>)
    ensures r.Some? ==> 1 <= r.value <= |ws| && !RowIsEmpty(RowAt(ws, r.value))
    ensures forall n :: 1 <= n <= |ws| && (r.None? || r.value < n) ==> RowIsEmpty(RowAt(ws, n))
  {
    LastUsedUpTo(ws, |ws|)
  }

  /** A worksheet with a used row has a first and a last used row, in that order. */
  lemma UsedRowsOrdered(ws: Worksheet)
    ensures FirstRowUsed(ws).Some? <==> LastRowUsed(ws).Some?
    ensures FirstRowUsed(ws).Some? ==> FirstRowUsed(ws).value <= LastRowUsed(ws).value
  {
    var f, l := FirstRowUsed(ws), LastRowUsed(ws);
    if f.Some? {
      assert !RowIsEmpty(RowAt(ws, f.value));
    }
    if l.Some? {
      assert !RowIsEmpty(RowAt(ws, l.value));
    }
  }
}
