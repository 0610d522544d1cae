/** The abstract spreadsheet the writer draws on: sheets numbered from 0,
    each with a title, typed cells addressed by (sheet, column, row), column
    widths, row heights and an optional frozen pane, plus the default style
    shared by every sheet. Only the operations the table writer uses are
    modelled. */
module Workbooks {
  import opened Wrappers
  import opened CellStyles

  /** A written cell: its (possibly null) value and the explicit data type. */
  datatype Cell = Cell(value: Option<string>, dataType: DataType)

  /** The two properties of the spreadsheet's default style the writer sets;
      `None` is the library's own default font size. */
  datatype DefaultStyle = DefaultStyle(fontSize: Option<int>, wrapText: bool)

  /** Sheet k exists when k < |titles|; the maps are keyed by sheet first. */
  datatype Workbook = Workbook(
    titles: seq<string>,
    cells: map<(nat, int, int), Cell>,
    columnWidths: map<(nat, int), int>,
    rowHeights: map<(nat, int), int>,
    freezes: map<nat, (int, int)>,
    defaultStyle: DefaultStyle)

  /** The parts of a workbook an operation may change. */
  datatype Part = Titles | Cells | Widths | Heights | Freezes | Style

  /** `a` and `b` differ at most in the given parts. */
  predicate SameExcept(a: Workbook, b: Workbook, parts: set<Part>) {
    && (Titles !in parts ==> b.titles == a.titles)
    && (Cells !in parts ==> b.cells == a.cells)
    && (Widths !in parts ==> b.columnWidths == a.columnWidths)
    && (Heights !in parts ==> b.rowHeights == a.rowHeights)
    && (Freezes !in parts ==> b.freezes == a.freezes)
    && (Style !in parts ==> b.defaultStyle == a.defaultStyle)
  }

  /** The title a sheet gets when the workbook creates it. */
  const DEFAULT_SHEET_TITLE: string := "Worksheet"

  function SheetCount(wb: Workbook): nat {
    |wb.titles|
  }

  /** A workbook with one empty sheet, as a new spreadsheet starts. */
  function NewWorkbook(): (wb: Workbook)
    ensures SheetCount(wb) == 1 && wb.titles[0] == DEFAULT_SHEET_TITLE
    ensures forall k: nat, c, r :: GetCell(wb, k, c, r).None?
  {
    Workbook([DEFAULT_SHEET_TITLE], map[], map[], map[], map[], DefaultStyle(None, false))
  }

  /** The cell at (column c, row r) of sheet k, or None if nothing was written there. */
  function GetCell(wb: Workbook, k: nat, c: int, r: int): Option<Cell> {
    if (k, c, r) in wb.cells then Some(wb.cells[(k, c, r)]) else None
  }

  /** The width set on column c of sheet k, if any. */
  function GetColumnWidth(wb: Workbook, k: nat, c: int): Option<int> {
    if (k, c) in wb.columnWidths then Some(wb.columnWidths[(k, c)]) else None
  }

  /** The height set on row r of sheet k, if any. */
  function GetRowHeight(wb: Workbook, k: nat, r: int): Option<int> {
    if (k, r) in wb.rowHeights then Some(wb.rowHeights[(k, r)]) else None
  }

  /** The frozen pane of sheet k, if any. */
  function GetFreeze(wb: Workbook, k: nat): Option<(int, int)> {
    if k in wb.freezes then Some(wb.freezes[k]) else None
  }

  /** `createSheet()`: append a new sheet with the default title. */
  function CreateSheet(wb: Workbook): Workbook {
    wb.(titles := wb.titles + [DEFAULT_SHEET_TITLE])
  }

  /** The new sheet comes last, takes the next index, and nothing but the
      titles changes. */
  lemma CreateSheetSpec(wb: Workbook)
    ensures var r := CreateSheet(wb);
      && SheetCount(r) == SheetCount(wb) + 1
      && r.titles[..SheetCount(wb)] == wb.titles && r.titles[SheetCount(wb)] == DEFAULT_SHEET_TITLE
      && SameExcept(wb, r, {Titles})
  {
    assert CreateSheet(wb).titles[..SheetCount(wb)] == wb.titles;
  }

  /** `setCellValueExplicitByColumnAndRow`. */
  function SetCell(wb: Workbook, k: nat, c: int, r: int, cell: Cell): Workbook {
    wb.(cells := wb.cells[(k, c, r) := cell])
  }

  /** Exactly the addressed cell changes, and it reads back. */
  lemma SetCellSpec(wb: Workbook, k: nat, c: int, r: int, cell: Cell)
    ensures GetCell(SetCell(wb, k, c, r, cell), k, c, r) == Some(cell)
    ensures forall k': nat, c', r' :: k' != k || c' != c || r' != r ==>
              GetCell(SetCell(wb, k, c, r, cell), k', c', r') == GetCell(wb, k', c', r')
    ensures SameExcept(wb, SetCell(wb, k, c, r, cell), {Cells})
  {
  }

  /** Cells written one after another along row r of sheet k, the first at
      column c (where they land: `SetRowCellsPlaced`, `SetRowCellsFrame`). */
  function SetRowCells(wb: Workbook, k: nat, c: int, r: int, cells: seq<Cell>): Workbook
    decreases |cells|
  {
    if |cells| == 0 then wb
    else SetRowCells(SetCell(wb, k, c, r, cells[0]), k, c + 1, r, cells[1..])
  }

  /** The i-th cell lands in column c + i. */
  lemma {:induction false} SetRowCellsPlaced(wb: Workbook, k: nat, c: int, r: int, cells: seq<Cell>)
    ensures forall i :: 0 <= i < |cells| ==> GetCell(SetRowCells(wb, k, c, r, cells), k, c + i, r) == Some(cells[i])
    decreases |cells|
  {
    if |cells| > 0 {
      var wb1 := SetCell(wb, k, c, r, cells[0]);
      SetCellSpec(wb, k, c, r, cells[0]);
      SetRowCellsPlaced(wb1, k, c + 1, r, cells[1..]);
      SetRowCellsFrame(wb1, k, c + 1, r, cells[1..]);
      forall i | 1 <= i < |cells|
        ensures GetCell(SetRowCells(wb, k, c, r, cells), k, c + i, r) == Some(cells[i])
      {
        assert cells[1..][i - 1] == cells[i] && c + 1 + (i - 1) == c + i;
      }
    }
  }

  /** No cell outside the columns written changes, and nothing but cells. */
  lemma {:induction false} SetRowCellsFrame(wb: Workbook, k: nat, c: int, r: int, cells: seq<Cell>)
    ensures forall k': nat, c', r' :: k' != k || r' != r || c' < c || c' >= c + |cells| ==>
              GetCell(SetRowCells(wb, k, c, r, cells), k', c', r') == GetCell(wb, k', c', r')
    ensures SameExcept(wb, SetRowCells(wb, k, c, r, cells), {Cells})
    decreases |cells|
  {
    if |cells| > 0 {
      SetCellSpec(wb, k, c, r, cells[0]);
      SetRowCellsFrame(SetCell(wb, k, c, r, cells[0]), k, c + 1, r, cells[1..]);
    }
  }

  /** `getColumnDimensionByColumn($c)->setWidth($w)`. */
  function SetColumnWidth(wb: Workbook, k: nat, c: int, w: int): Workbook {
    wb.(columnWidths := wb.columnWidths[(k, c) := w])
  }

  /** Exactly the addressed width changes, and it reads back. */
  lemma SetColumnWidthSpec(wb: Workbook, k: nat, c: int, w: int)
    ensures GetColumnWidth(SetColumnWidth(wb, k, c, w), k, c) == Some(w)
    ensures forall k': nat, c' :: k' != k || c' != c ==>
              GetColumnWidth(SetColumnWidth(wb, k, c, w), k', c') == GetColumnWidth(wb, k', c')
    ensures SameExcept(wb, SetColumnWidth(wb, k, c, w), {Widths})
  {
  }

  /** Widths set on consecutive columns of sheet k, the first on column c
      (where: `SetColumnWidthsPlaced`, `SetColumnWidthsFrame`). */
  function SetColumnWidths(wb: Workbook, k: nat, c: int, widths: seq<int>): Workbook
    decreases |widths|
  {
    if |widths| == 0 then wb
    else SetColumnWidths(SetColumnWidth(wb, k, c, widths[0]), k, c + 1, widths[1..])
  }

  /** The i-th width goes on column c + i. */
  lemma {:induction false} SetColumnWidthsPlaced(wb: Workbook, k: nat, c: int, widths: seq<int>)
    ensures forall i :: 0 <= i < |widths| ==> GetColumnWidth(SetColumnWidths(wb, k, c, widths), k, c + i) == Some(widths[i])
    decreases |widths|
  {
    if |widths| > 0 {
      var wb1 := SetColumnWidth(wb, k, c, widths[0]);
      SetColumnWidthSpec(wb, k, c, widths[0]);
      SetColumnWidthsPlaced(wb1, k, c + 1, widths[1..]);
      SetColumnWidthsFrame(wb1, k, c + 1, widths[1..]);
      forall i | 1 <= i < |widths|
        ensures GetColumnWidth(SetColumnWidths(wb, k, c, widths), k, c + i) == Some(widths[i])
      {
        assert widths[1..][i - 1] == widths[i] && c + 1 + (i - 1) == c + i;
      }
    }
  }

  /** No width of another sheet or column changes, and nothing but widths. */
  lemma {:induction false} SetColumnWidthsFrame(wb: Workbook, k: nat, c: int, widths: seq<int>)
    ensures forall k': nat, c' :: k' != k || c' < c || c' >= c + |widths| ==>
              GetColumnWidth(SetColumnWidths(wb, k, c, widths), k', c') == GetColumnWidth(wb, k', c')
    ensures SameExcept(wb, SetColumnWidths(wb, k, c, widths), {Widths})
    decreases |widths|
  {
    if |widths| > 0 {
      SetColumnWidthSpec(wb, k, c, widths[0]);
      SetColumnWidthsFrame(SetColumnWidth(wb, k, c, widths[0]), k, c + 1, widths[1..]);
    }
  }

  /** `getRowDimension($r)->setRowHeight($h)`. */
  function SetRowHeight(wb: Workbook, k: nat, r: int, h: int): Workbook {
    wb.(rowHeights := wb.rowHeights[(k, r) := h])
  }

  /** Exactly the addressed height changes, and it reads back. */
  lemma SetRowHeightSpec(wb: Workbook, k: nat, r: int, h: int)
    ensures GetRowHeight(SetRowHeight(wb, k, r, h), k, r) == Some(h)
    ensures forall k': nat, r' :: k' != k || r' != r ==>
              GetRowHeight(SetRowHeight(wb, k, r, h), k', r') == GetRowHeight(wb, k', r')
    ensures SameExcept(wb, SetRowHeight(wb, k, r, h), {Heights})
  {
  }

  /** `setTitle($title)` on an existing sheet. */
  function SetTitle(wb: Workbook, k: nat, title: string): Workbook
    requires k < SheetCount(wb)
  {
    wb.(titles := wb.titles[k := title])
  }

  /** `freezePaneByColumnAndRow($c, $r)`. */
  function FreezePane(wb: Workbook, k: nat, c: int, r: int): Workbook {
    wb.(freezes := wb.freezes[k := (c, r)])
  }

  /** `getDefaultStyle()->getFont()->setSize($s)` followed by
      `getDefaultStyle()->getAlignment()->setWrapText(true)`. */
  function SetDefaultStyle(wb: Workbook, fontSize: int): Workbook {
    wb.(defaultStyle := DefaultStyle(Some(fontSize), true))
  }

  /** Renaming, freezing and restyling each change only their own part, and
      read back. */
  lemma SheetSettersSpec(wb: Workbook, k: nat, title: string, c: int, r: int, fontSize: int)
    ensures k < SheetCount(wb) ==>
              SetTitle(wb, k, title).titles == wb.titles[k := title] && SameExcept(wb, SetTitle(wb, k, title), {Titles})
    ensures GetFreeze(FreezePane(wb, k, c, r), k) == Some((c, r))
    ensures forall k': nat :: k' != k ==> GetFreeze(FreezePane(wb, k, c, r), k') == GetFreeze(wb, k')
    ensures SameExcept(wb, FreezePane(wb, k, c, r), {Freezes})
    ensures SetDefaultStyle(wb, fontSize).defaultStyle == DefaultStyle(Some(fontSize), true)
    ensures SameExcept(wb, SetDefaultStyle(wb, fontSize), {Style})
  {
  }
}
