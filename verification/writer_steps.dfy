/** What each step of `writeTableToWorksheet` does to the table cursor and
    to the workbook, one effect per lemma: the cursor fields it moves, the
    cells it writes, and everything it leaves alone. The effects of writing
    a row are proved once for any cells and then instantiated, so that the
    proofs never depend on what sanitizing a value produces. */
module WriterSteps {
  import opened Wrappers
  import opened PhpStrings
  import opened CellStyles
  import opened Columns
  import opened Workbooks
  import opened Tables
  import opened TableWriter

  /** What a fragment keeps from the table it was split from, and a cursor
      from one step to the next: where it starts, what it writes and how. */
  predicate Carries(t: Table, u: Table) {
    && u.rowStart == t.rowStart && u.columnStart == t.columnStart
    && u.heading == t.heading && u.data == t.data
    && u.columnCollection == t.columnCollection && u.freezePanes == t.freezePanes
  }

  // ---------------------------------------------------------------------------
  // writeRow
  // ---------------------------------------------------------------------------

  /** Writing a row moves the cursor to the column after the last cell
      written and one row down; the end row and column catch up with what
      was passed, and nothing else moves. */
  lemma WriteCellsCursor(wb: Workbook, t: Table, cells: seq<Cell>)
    ensures var r := WriteCells(wb, t, cells).1;
      && SameConfig(t, r) && Carries(t, r) && r.dataRowStart == t.dataRowStart
      && r.rowCurrent == t.rowCurrent + 1 && r.rowEnd == Max(t.rowEnd, t.rowCurrent)
      && r.columnCurrent == t.columnStart + |cells| && r.columnEnd == ColumnReach(t.columnEnd, t.columnStart, |cells|)
  {
  }

  /** Writing a row puts the i-th cell in column `columnStart + i` of the
      current row. */
  lemma WriteCellsPlaced(wb: Workbook, t: Table, cells: seq<Cell>)
    ensures var r := WriteCells(wb, t, cells).0;
      forall i :: 0 <= i < |cells| ==> GetCell(r, t.sheet, t.columnStart + i, t.rowCurrent) == Some(cells[i])
  {
    SetRowCellsPlaced(wb, t.sheet, t.columnStart, t.rowCurrent, cells);
  }

  /** Writing a row changes no cell outside the current row. */
  lemma WriteCellsFrame(wb: Workbook, t: Table, cells: seq<Cell>)
    ensures var r := WriteCells(wb, t, cells).0;
      forall k: nat, c, rr :: k != t.sheet || rr != t.rowCurrent ==> GetCell(r, k, c, rr) == GetCell(wb, k, c, rr)
  {
    SetRowCellsFrame(wb, t.sheet, t.columnStart, t.rowCurrent, cells);
  }

  /** Writing a row sets the configured height on the current row, if there
      is one, and no other height. */
  lemma WriteCellsRowHeights(wb: Workbook, t: Table, cells: seq<Cell>)
    ensures var r := WriteCells(wb, t, cells).0;
      forall k: nat, rr :: GetRowHeight(r, k, rr) ==
        if k == t.sheet && rr == t.rowCurrent && t.rowHeight.Some? then t.rowHeight else GetRowHeight(wb, k, rr)
  {
    var wb1 := SetRowCells(wb, t.sheet, t.columnStart, t.rowCurrent, cells);
    SetRowCellsFrame(wb, t.sheet, t.columnStart, t.rowCurrent, cells);
    if t.rowHeight.Some? {
      SetRowHeightSpec(wb1, t.sheet, t.rowCurrent, t.rowHeight.value);
    }
  }

  /** `writeRow` leaves the cursor one row down, after its last cell. */
  lemma WriteRowCursor(wb: Workbook, t: Table, row: Row, isTitle: bool)
    ensures var r := WriteRow(wb, t, row, isTitle).1;
      && SameConfig(t, r) && Carries(t, r) && r.dataRowStart == t.dataRowStart
      && r.rowCurrent == t.rowCurrent + 1 && r.rowEnd == Max(t.rowEnd, t.rowCurrent)
      && r.columnCurrent == t.columnStart + |row| && r.columnEnd == ColumnReach(t.columnEnd, t.columnStart, |row|)
  {
    WriteCellsCursor(wb, t, RowCells(t.columnCollection, row, isTitle));
  }

  /** `writeRow` writes the i-th pair, sanitized and typed, in column
      `columnStart + i` of the current row. */
  lemma WriteRowCells(wb: Workbook, t: Table, row: Row, isTitle: bool)
    ensures var r := WriteRow(wb, t, row, isTitle).0;
      forall i :: 0 <= i < |row| ==>
        GetCell(r, t.sheet, t.columnStart + i, t.rowCurrent) == Some(WrittenCell(t.columnCollection, row[i], isTitle))
  {
    WriteCellsPlaced(wb, t, RowCells(t.columnCollection, row, isTitle));
    RowCellsAt(t.columnCollection, row, isTitle);
  }

  // ---------------------------------------------------------------------------
  // writeTableHeading
  // ---------------------------------------------------------------------------

  /** `writeTableHeading` puts the cursor on the start column one row down. */
  lemma WriteTableHeadingCursor(wb: Workbook, t: Table)
    ensures var r := WriteTableHeading(wb, t).1;
      && SameConfig(t, r) && Carries(t, r) && r.dataRowStart == t.dataRowStart
      && r.rowCurrent == t.rowCurrent + 1 && r.rowEnd == Max(t.rowEnd, t.rowCurrent)
      && r.columnCurrent == t.columnStart && r.columnEnd == t.columnEnd
  {
  }

  /** `writeTableHeading` writes the heading cell in the start column of the
      current row. */
  lemma WriteTableHeadingCell(wb: Workbook, t: Table)
    ensures GetCell(WriteTableHeading(wb, t).0, t.sheet, t.columnStart, t.rowCurrent) == Some(HeadingCell(t.heading))
  {
    SetCellSpec(SetDefaultStyle(wb, t.fontSize), t.sheet, t.columnStart, t.rowCurrent, HeadingCell(t.heading));
  }

  /** `writeTableHeading` changes no other cell. */
  lemma WriteTableHeadingFrame(wb: Workbook, t: Table)
    ensures var r := WriteTableHeading(wb, t).0;
      forall k: nat, c, rr :: k != t.sheet || c != t.columnStart || rr != t.rowCurrent ==> GetCell(r, k, c, rr) == GetCell(wb, k, c, rr)
  {
    SetCellSpec(SetDefaultStyle(wb, t.fontSize), t.sheet, t.columnStart, t.rowCurrent, HeadingCell(t.heading));
  }

  /** `writeTableHeading` sets the default style to the table's font size
      with wrapping on. */
  lemma WriteTableHeadingStyle(wb: Workbook, t: Table)
    ensures WriteTableHeading(wb, t).0.defaultStyle == DefaultStyle(Some(t.fontSize), true)
  {
    SheetSettersSpec(wb, 0, "", 0, 0, t.fontSize);
  }

  // ---------------------------------------------------------------------------
  // writeColumnsHeading
  // ---------------------------------------------------------------------------

  /** A second pass over no more columns than the first reaches no further. */
  lemma ColumnReachAbsorbs(e: int, from: int, n: nat, m: nat)
    requires m <= n
    ensures ColumnReach(ColumnReach(e, from, n), from, m) == ColumnReach(e, from, n)
  {
  }

  /** The header row leaves the cursor one row down, after the last title,
      records the titles and flags the next row as the first data row; the
      end column covers every width set. */
  lemma WriteHeaderCursor(wb: Workbook, t: Table, widths: seq<int>, titles: seq<(string, string)>)
    requires |titles| <= |widths|
    ensures var r := WriteHeader(wb, t, widths, titles).1;
      && Carries(t, r) && r.sheet == t.sheet && r.fontSize == t.fontSize && r.rowHeight == t.rowHeight
      && r.textWrap == t.textWrap && r.writtenColumn == t.writtenColumn && r.count == t.count
      && r.rowCurrent == t.rowCurrent + 1 && r.rowEnd == Max(t.rowEnd, t.rowCurrent)
      && r.columnCurrent == t.columnStart + |titles|
      && r.columnEnd == ColumnReach(t.columnEnd, t.columnStart, |widths|)
      && r.writtenColumnTitles == Some(titles) && r.dataRowStart == Some(t.rowCurrent + 1)
  {
    var t2 := IncrementColumns(ResetColumn(t), |widths|);
    var wb1 := SetColumnWidths(wb, t.sheet, t.columnStart, widths);
    WriteCellsCursor(wb1, t2, RowCells(t.columnCollection, TitleRow(titles), true));
    ColumnReachAbsorbs(t.columnEnd, t.columnStart, |widths|, |titles|);
  }

  /** The header row holds the titles, sanitized, as strings, along the
      current row from the start column. */
  lemma WriteHeaderCells(wb: Workbook, t: Table, widths: seq<int>, titles: seq<(string, string)>)
    ensures var r := WriteHeader(wb, t, widths, titles).0;
      forall i :: 0 <= i < |titles| ==>
        GetCell(r, t.sheet, t.columnStart + i, t.rowCurrent) == Some(Cell(Some(SanitizeString(titles[i].1)), TypeString))
  {
    var wb1 := SetColumnWidths(wb, t.sheet, t.columnStart, widths);
    var t2 := IncrementColumns(ResetColumn(t), |widths|);
    var row := TitleRow(titles);
    assert t2.sheet == t.sheet && t2.columnStart == t.columnStart && t2.rowCurrent == t.rowCurrent;
    assert WriteHeader(wb, t, widths, titles).0 == WriteRow(wb1, t2, row, true).0;
    WriteRowCells(wb1, t2, row, true);
    TitleRowAt(titles);
  }

  /** The header row changes no cell outside the current row. */
  lemma WriteHeaderFrame(wb: Workbook, t: Table, widths: seq<int>, titles: seq<(string, string)>)
    ensures var r := WriteHeader(wb, t, widths, titles).0;
      forall k: nat, c, rr :: k != t.sheet || rr != t.rowCurrent ==> GetCell(r, k, c, rr) == GetCell(wb, k, c, rr)
  {
    var wb1 := SetColumnWidths(wb, t.sheet, t.columnStart, widths);
    var t2 := IncrementColumns(ResetColumn(t), |widths|);
    SetColumnWidthsFrame(wb, t.sheet, t.columnStart, widths);
    WriteCellsFrame(wb1, t2, RowCells(t.columnCollection, TitleRow(titles), true));
  }

  /** The header row sets the i-th width on column `columnStart + i`. */
  lemma WriteHeaderWidths(wb: Workbook, t: Table, widths: seq<int>, titles: seq<(string, string)>)
    ensures var r := WriteHeader(wb, t, widths, titles).0;
      forall i :: 0 <= i < |widths| ==> GetColumnWidth(r, t.sheet, t.columnStart + i) == Some(widths[i])
  {
    var wb1 := SetColumnWidths(wb, t.sheet, t.columnStart, widths);
    var t2 := IncrementColumns(ResetColumn(t), |widths|);
    WriteCellsParts(wb1, t2, RowCells(t.columnCollection, TitleRow(titles), true));
    SetColumnWidthsPlaced(wb, t.sheet, t.columnStart, widths);
  }

  /** The header row sets no width of another sheet or column. */
  lemma WriteHeaderWidthsFrame(wb: Workbook, t: Table, widths: seq<int>, titles: seq<(string, string)>)
    ensures var r := WriteHeader(wb, t, widths, titles).0;
      forall k: nat, c :: k != t.sheet || c < t.columnStart || c >= t.columnStart + |widths| ==>
        GetColumnWidth(r, k, c) == GetColumnWidth(wb, k, c)
  {
    var wb1 := SetColumnWidths(wb, t.sheet, t.columnStart, widths);
    var t2 := IncrementColumns(ResetColumn(t), |widths|);
    WriteCellsParts(wb1, t2, RowCells(t.columnCollection, TitleRow(titles), true));
    SetColumnWidthsFrame(wb, t.sheet, t.columnStart, widths);
  }

  /** `writeColumnsHeading` on a row with distinct keys writes the title of
      the i-th key in column `columnStart + i`: the collection's heading
      when the key is in the collection, the key with underscores turned
      into spaces and words capitalized otherwise. */
  lemma WriteColumnsHeadingCells(wb: Workbook, t: Table, row: Row)
    requires DistinctKeys(row)
    ensures var r := WriteColumnsHeading(wb, t, row).0;
      forall i :: 0 <= i < |row| ==>
        GetCell(r, t.sheet, t.columnStart + i, t.rowCurrent) ==
          Some(Cell(Some(SanitizeString(ResolveHeader(t.columnCollection, row[i].0).1)), TypeString))
  {
    HeaderTitlesResolved(t.columnCollection, row);
    WriteHeaderCells(wb, t, HeaderWidths(t.columnCollection, row), HeaderTitles(t.columnCollection, row));
  }

  /** `writeColumnsHeading` gives column `columnStart + i` the i-th key's
      width: the collection's when the key is in it, 10 otherwise. */
  lemma WriteColumnsHeadingWidths(wb: Workbook, t: Table, row: Row)
    ensures var r := WriteColumnsHeading(wb, t, row).0;
      forall i :: 0 <= i < |row| ==>
        GetColumnWidth(r, t.sheet, t.columnStart + i) == Some(ResolveHeader(t.columnCollection, row[i].0).0)
  {
    WriteHeaderWidths(wb, t, HeaderWidths(t.columnCollection, row), HeaderTitles(t.columnCollection, row));
    HeaderWidthsAt(t.columnCollection, row);
  }

  // ---------------------------------------------------------------------------
  // One iteration of the loop
  // ---------------------------------------------------------------------------

  /** The budget check splits the table. */
  predicate Splits(w: Writer, st: WriteState) {
    st.cur.rowCurrent > w.rowsPerSheet
  }

  /** Within the budget the budget check leaves the state alone. */
  lemma PaginationStepKeeps(w: Writer, st: WriteState)
    requires !Splits(w, st)
    ensures PaginationStep(w, st) == st
  {
  }

  /** Past the budget the budget check files the current fragment, opens a new one
      on a new sheet at the parent's start row, writes its heading there
      (with the default font size, which the new fragment was reset to) and
      asks for a header row. */
  lemma PaginationStepSplit(w: Writer, st: WriteState)
    requires Splits(w, st)
    ensures var r := PaginationStep(w, st);
      && r.done == st.done + [st.cur] && r.headingRow && r.count == st.count
      && r.cur.sheet == SheetCount(st.wb) && Carries(st.cur, r.cur)
      && r.cur.rowCurrent == st.cur.rowStart + 1
      && r.cur.fontSize == DEFAULT_FONT_SIZE && r.cur.rowHeight.None?
      && SheetCount(r.wb) == SheetCount(st.wb) + 1
      && (forall k :: 0 <= k < SheetCount(st.wb) ==> r.wb.titles[k] == st.wb.titles[k])
      && r.wb.defaultStyle == DefaultStyle(Some(DEFAULT_FONT_SIZE), true)
      && SameExcept(st.wb, r.wb, {Titles, Cells, Style})
  {
    var (wb1, t1) := SplitTableOnNewWorksheet(st.wb, st.cur);
    SplitTableFresh(st.wb, st.cur);
    CreateSheetSpec(st.wb);
    WriteTableHeadingCursor(wb1, t1);
    WriteTableHeadingStyle(wb1, t1);
    WriteTableHeadingParts(wb1, t1);
  }

  /** The budget check writes at most one cell: past the budget, the heading at the
      parent's start row and column of the new sheet. */
  lemma PaginationStepCells(w: Writer, st: WriteState)
    ensures var r := PaginationStep(w, st);
      forall k: nat, c, rr :: !Splits(w, st) || k != SheetCount(st.wb) || c != st.cur.columnStart || rr != st.cur.rowStart ==>
        GetCell(r.wb, k, c, rr) == GetCell(st.wb, k, c, rr)
    ensures Splits(w, st) ==>
      GetCell(PaginationStep(w, st).wb, SheetCount(st.wb), st.cur.columnStart, st.cur.rowStart) == Some(HeadingCell(st.cur.heading))
  {
    if Splits(w, st) {
      var (wb1, t1) := SplitTableOnNewWorksheet(st.wb, st.cur);
      SplitTableFresh(st.wb, st.cur);
      CreateSheetSpec(st.wb);
      WriteTableHeadingFrame(wb1, t1);
      WriteTableHeadingCell(wb1, t1);
    }
  }

  /** The rest of the body moves the cursor down past the header row, when
      one is due, and the record; it stays on its sheet and files nothing. */
  lemma WriteStepCursor(st: WriteState, row: Row)
    ensures var r := WriteStep(st, row);
      var h := if st.headingRow then 1 else 0;
      && r.done == st.done && !r.headingRow && r.count == st.count
      && r.cur.sheet == st.cur.sheet && Carries(st.cur, r.cur)
      && r.cur.fontSize == st.cur.fontSize && r.cur.rowHeight == st.cur.rowHeight
      && r.cur.rowCurrent == st.cur.rowCurrent + h + 1
      && SameExcept(st.wb, r.wb, {Cells, Widths, Heights})
  {
    var cur := st.cur;
    var coll := cur.columnCollection;
    if st.headingRow {
      WriteHeaderCursor(st.wb, cur, HeaderWidths(coll, row), HeaderTitles(coll, row));
      WriteHeaderParts(st.wb, cur, HeaderWidths(coll, row), HeaderTitles(coll, row));
    }
    var (wb1, t1) := if st.headingRow then WriteColumnsHeading(st.wb, cur, row) else (st.wb, cur);
    WriteCellsCursor(wb1, t1, RowCells(t1.columnCollection, row, false));
    WriteCellsParts(wb1, t1, RowCells(t1.columnCollection, row, false));
  }

  /** The header row, when one is due, flags the row below it as the first
      data row; a record row alone leaves the flag as it was. */
  lemma WriteStepDataRow(st: WriteState, row: Row)
    ensures WriteStep(st, row).cur.dataRowStart ==
      if st.headingRow then Some(st.cur.rowCurrent + 1) else st.cur.dataRowStart
  {
    var cur := st.cur;
    var coll := cur.columnCollection;
    if st.headingRow {
      WriteHeaderCursor(st.wb, cur, HeaderWidths(coll, row), HeaderTitles(coll, row));
    }
    var (wb1, t1) := if st.headingRow then WriteColumnsHeading(st.wb, cur, row) else (st.wb, cur);
    WriteCellsCursor(wb1, t1, RowCells(t1.columnCollection, row, false));
  }

  /** Neither the header row nor the record row touches the count. */
  lemma WriteStepCount(st: WriteState, row: Row)
    ensures WriteStep(st, row).cur.count == st.cur.count
  {
    var cur := st.cur;
    var coll := cur.columnCollection;
    if st.headingRow {
      WriteHeaderCursor(st.wb, cur, HeaderWidths(coll, row), HeaderTitles(coll, row));
    }
    var (wb1, t1) := if st.headingRow then WriteColumnsHeading(st.wb, cur, row) else (st.wb, cur);
    WriteCellsCursor(wb1, t1, RowCells(t1.columnCollection, row, false));
  }

  /** The header row sets the configured height on its row, if there is
      one, and no other height. */
  lemma WriteHeaderRowHeights(wb: Workbook, t: Table, widths: seq<int>, titles: seq<(string, string)>)
    ensures var r := WriteHeader(wb, t, widths, titles).0;
      forall k: nat, rr :: GetRowHeight(r, k, rr) ==
        if k == t.sheet && rr == t.rowCurrent && t.rowHeight.Some? then t.rowHeight else GetRowHeight(wb, k, rr)
  {
    var wb1 := SetColumnWidths(wb, t.sheet, t.columnStart, widths);
    var t2 := IncrementColumns(ResetColumn(t), |widths|);
    SetColumnWidthsFrame(wb, t.sheet, t.columnStart, widths);
    assert t2.sheet == t.sheet && t2.rowCurrent == t.rowCurrent && t2.rowHeight == t.rowHeight;
    WriteCellsRowHeights(wb1, t2, RowCells(t.columnCollection, TitleRow(titles), true));
  }

  /** The header row, when one is due, and the record row get the configured
      height, if there is one; no other height changes. */
  lemma WriteStepRowHeights(st: WriteState, row: Row)
    ensures var r := WriteStep(st, row).wb;
      forall k: nat, rr :: GetRowHeight(r, k, rr) ==
        if st.cur.rowHeight.Some? && k == st.cur.sheet
           && st.cur.rowCurrent <= rr <= st.cur.rowCurrent + (if st.headingRow then 1 else 0)
        then st.cur.rowHeight else GetRowHeight(st.wb, k, rr)
  {
    var cur := st.cur;
    var coll := cur.columnCollection;
    if st.headingRow {
      WriteHeaderCursor(st.wb, cur, HeaderWidths(coll, row), HeaderTitles(coll, row));
      WriteHeaderRowHeights(st.wb, cur, HeaderWidths(coll, row), HeaderTitles(coll, row));
    }
    var (wb1, t1) := if st.headingRow then WriteColumnsHeading(st.wb, cur, row) else (st.wb, cur);
    WriteCellsRowHeights(wb1, t1, RowCells(t1.columnCollection, row, false));
  }

  /** The record goes right below the header row when one is due, else on
      the current row, one written cell per pair from the start column. */
  lemma WriteStepRecord(st: WriteState, row: Row)
    ensures var r := WriteStep(st, row);
      var at := st.cur.rowCurrent + if st.headingRow then 1 else 0;
      forall i :: 0 <= i < |row| ==>
        GetCell(r.wb, st.cur.sheet, st.cur.columnStart + i, at) == Some(WrittenCell(st.cur.columnCollection, row[i], false))
  {
    var cur := st.cur;
    var coll := cur.columnCollection;
    if st.headingRow {
      WriteHeaderCursor(st.wb, cur, HeaderWidths(coll, row), HeaderTitles(coll, row));
    }
    var (wb1, t1) := if st.headingRow then WriteColumnsHeading(st.wb, cur, row) else (st.wb, cur);
    WriteRowCells(wb1, t1, row, false);
  }

  /** A header row followed by a record row: the titles stay in place. */
  lemma HeaderThenCells(wb: Workbook, t: Table, widths: seq<int>, titles: seq<(string, string)>, row: Row)
    requires |titles| <= |widths|
    ensures var h := WriteHeader(wb, t, widths, titles);
      forall i :: 0 <= i < |titles| ==>
        GetCell(WriteRow(h.0, h.1, row, false).0, t.sheet, t.columnStart + i, t.rowCurrent) == Some(Cell(Some(SanitizeString(titles[i].1)), TypeString))
  {
    var h := WriteHeader(wb, t, widths, titles);
    WriteHeaderCursor(wb, t, widths, titles);
    WriteHeaderCells(wb, t, widths, titles);
    WriteCellsFrame(h.0, h.1, RowCells(h.1.columnCollection, row, false));
  }

  /** A header row followed by a record row: the widths stay in place. */
  lemma HeaderThenWidths(wb: Workbook, t: Table, widths: seq<int>, titles: seq<(string, string)>, row: Row)
    ensures var h := WriteHeader(wb, t, widths, titles);
      forall i :: 0 <= i < |widths| ==> GetColumnWidth(WriteRow(h.0, h.1, row, false).0, t.sheet, t.columnStart + i) == Some(widths[i])
  {
    var h := WriteHeader(wb, t, widths, titles);
    WriteHeaderWidths(wb, t, widths, titles);
    WriteCellsParts(h.0, h.1, RowCells(h.1.columnCollection, row, false));
  }

  /** `writeColumnsHeading` then `writeRow`: the header row keeps the titles. */
  lemma ColumnsHeadingThenRow(wb: Workbook, t: Table, row: Row)
    requires DistinctKeys(row)
    ensures var h := WriteColumnsHeading(wb, t, row);
      forall i :: 0 <= i < |row| ==>
        GetCell(WriteRow(h.0, h.1, row, false).0, t.sheet, t.columnStart + i, t.rowCurrent) ==
          Some(Cell(Some(SanitizeString(ResolveHeader(t.columnCollection, row[i].0).1)), TypeString))
  {
    var coll := t.columnCollection;
    var titles := HeaderTitles(coll, row);
    HeaderTitlesResolved(coll, row);
    HeaderThenCells(wb, t, HeaderWidths(coll, row), titles, row);
    forall i | 0 <= i < |row|
      ensures titles[i].1 == ResolveHeader(coll, row[i].0).1
    {
    }
  }

  /** When a header row is due, the current row gets the record's titles. */
  lemma WriteStepHeader(st: WriteState, row: Row)
    requires st.headingRow && DistinctKeys(row)
    ensures forall i :: 0 <= i < |row| ==>
              GetCell(WriteStep(st, row).wb, st.cur.sheet, st.cur.columnStart + i, st.cur.rowCurrent) ==
                Some(Cell(Some(SanitizeString(ResolveHeader(st.cur.columnCollection, row[i].0).1)), TypeString))
  {
    ColumnsHeadingThenRow(st.wb, st.cur, row);
  }

  /** `writeColumnsHeading` then `writeRow`: the columns keep their widths. */
  lemma ColumnsHeadingThenRowWidths(wb: Workbook, t: Table, row: Row)
    ensures var h := WriteColumnsHeading(wb, t, row);
      forall i :: 0 <= i < |row| ==>
        GetColumnWidth(WriteRow(h.0, h.1, row, false).0, t.sheet, t.columnStart + i) == Some(ResolveHeader(t.columnCollection, row[i].0).0)
  {
    var coll := t.columnCollection;
    HeaderThenWidths(wb, t, HeaderWidths(coll, row), HeaderTitles(coll, row), row);
    HeaderWidthsAt(coll, row);
  }

  /** When a header row is due, the record's columns get their widths. */
  lemma WriteStepHeaderWidths(st: WriteState, row: Row)
    requires st.headingRow
    ensures forall i :: 0 <= i < |row| ==>
              GetColumnWidth(WriteStep(st, row).wb, st.cur.sheet, st.cur.columnStart + i) ==
                Some(ResolveHeader(st.cur.columnCollection, row[i].0).0)
  {
    ColumnsHeadingThenRowWidths(st.wb, st.cur, row);
  }

  /** The header and record rows change no cell above the current row of
      the current sheet, nor on another sheet. */
  lemma WriteStepFrame(st: WriteState, row: Row)
    ensures var (r, cur) := (WriteStep(st, row), st.cur);
      forall k: nat, c, rr :: k != cur.sheet || rr < cur.rowCurrent ==> GetCell(r.wb, k, c, rr) == GetCell(st.wb, k, c, rr)
  {
    var cur := st.cur;
    var coll := cur.columnCollection;
    if st.headingRow {
      WriteHeaderFrame(st.wb, cur, HeaderWidths(coll, row), HeaderTitles(coll, row));
      WriteHeaderCursor(st.wb, cur, HeaderWidths(coll, row), HeaderTitles(coll, row));
      var (wb1, t1) := WriteColumnsHeading(st.wb, cur, row);
      WriteCellsFrame(wb1, t1, RowCells(coll, row, false));
    } else {
      WriteCellsFrame(st.wb, cur, RowCells(coll, row, false));
    }
  }

  /** Widths change only on the current sheet, and only with a header row. */
  lemma WriteStepWidths(st: WriteState, row: Row)
    ensures var (r, cur) := (WriteStep(st, row), st.cur);
      forall k: nat, c :: k != cur.sheet || !st.headingRow ==> GetColumnWidth(r.wb, k, c) == GetColumnWidth(st.wb, k, c)
  {
    var cur := st.cur;
    var coll := cur.columnCollection;
    if st.headingRow {
      WriteHeaderWidthsFrame(st.wb, cur, HeaderWidths(coll, row), HeaderTitles(coll, row));
    }
    var (wb1, t1) := if st.headingRow then WriteColumnsHeading(st.wb, cur, row) else (st.wb, cur);
    WriteCellsParts(wb1, t1, RowCells(coll, row, false));
  }

  // ---------------------------------------------------------------------------
  // A whole iteration
  // ---------------------------------------------------------------------------

  /** The sheet an iteration writes its record on: a new one when the budget
      is exceeded, else the current fragment's. */
  function StepSheet(w: Writer, st: WriteState): nat {
    if Splits(w, st) then SheetCount(st.wb) else st.cur.sheet
  }

  /** The row an iteration writes its record on: two below the start row on
      a new sheet, else below the header row when one is due, else the
      current row. */
  function StepRow(w: Writer, st: WriteState): int {
    if Splits(w, st) then st.cur.rowStart + 2
    else st.cur.rowCurrent + if st.headingRow then 1 else 0
  }

  /** An iteration counts the record and leaves the cursor below it, on a
      new fragment when the budget was exceeded. */
  lemma StepCursor(w: Writer, st: WriteState, row: Row)
    ensures var r := Step(w, st, row);
      && r.count == st.count + 1 && !r.headingRow && Carries(st.cur, r.cur)
      && r.cur.sheet == StepSheet(w, st) && r.cur.rowCurrent == StepRow(w, st) + 1
      && (Splits(w, st) ==>
            && r.done == st.done + [st.cur] && SheetCount(r.wb) == SheetCount(st.wb) + 1
            && r.cur.fontSize == DEFAULT_FONT_SIZE && r.cur.rowHeight.None?)
      && (!Splits(w, st) ==>
            && r.done == st.done && SheetCount(r.wb) == SheetCount(st.wb)
            && r.cur.fontSize == st.cur.fontSize && r.cur.rowHeight == st.cur.rowHeight)
  {
    var st1 := st.(count := st.count + 1);
    if Splits(w, st) {
      PaginationStepSplit(w, st1);
    } else {
      PaginationStepKeeps(w, st1);
    }
    WriteStepCursor(PaginationStep(w, st1), row);
  }

  /** A new fragment's first data row is two below its start row, under
      the heading and the header row; the first fragment's is the row below
      its header row; otherwise the flag is kept. */
  lemma StepDataRow(w: Writer, st: WriteState, row: Row)
    ensures Step(w, st, row).cur.dataRowStart ==
      if Splits(w, st) then Some(st.cur.rowStart + 2)
      else if st.headingRow then Some(st.cur.rowCurrent + 1)
      else st.cur.dataRowStart
  {
    var st1 := st.(count := st.count + 1);
    if Splits(w, st) {
      PaginationStepSplit(w, st1);
      WriteStepDataRow(PaginationStep(w, st1), row);
    } else {
      PaginationStepKeeps(w, st1);
      WriteStepDataRow(st1, row);
    }
  }

  /** The loop body never sets a count: the fragment a split opens has
      none, and otherwise the current fragment keeps the one it had. */
  lemma StepCount(w: Writer, st: WriteState, row: Row)
    ensures Step(w, st, row).cur.count == if Splits(w, st) then None else st.cur.count
  {
    var st1 := st.(count := st.count + 1);
    if Splits(w, st) {
      var (wb1, t1) := SplitTableOnNewWorksheet(st1.wb, st1.cur);
      SplitTableFresh(st1.wb, st1.cur);
      WriteTableHeadingCursor(wb1, t1);
    } else {
      PaginationStepKeeps(w, st1);
    }
    WriteStepCount(PaginationStep(w, st1), row);
  }

  /** Within the budget an iteration gives the configured height, if there
      is one, to the rows it writes; past it, the new fragment has no height
      and none changes. */
  lemma StepRowHeights(w: Writer, st: WriteState, row: Row)
    ensures var r := Step(w, st, row).wb;
      forall k: nat, rr :: GetRowHeight(r, k, rr) ==
        if !Splits(w, st) && st.cur.rowHeight.Some? && k == st.cur.sheet && st.cur.rowCurrent <= rr <= StepRow(w, st)
        then st.cur.rowHeight else GetRowHeight(st.wb, k, rr)
  {
    var st1 := st.(count := st.count + 1);
    if Splits(w, st) {
      PaginationStepSplit(w, st1);
      WriteStepRowHeights(PaginationStep(w, st1), row);
    } else {
      PaginationStepKeeps(w, st1);
      WriteStepRowHeights(st1, row);
    }
  }

  /** An iteration renames no existing sheet and freezes no pane; the
      default style changes only with a split, to the default font size. */
  lemma StepParts(w: Writer, st: WriteState, row: Row)
    ensures var r := Step(w, st, row);
      && SheetCount(r.wb) >= SheetCount(st.wb)
      && (forall k :: 0 <= k < SheetCount(st.wb) ==> r.wb.titles[k] == st.wb.titles[k])
      && r.wb.freezes == st.wb.freezes
      && r.wb.defaultStyle == if Splits(w, st) then DefaultStyle(Some(DEFAULT_FONT_SIZE), true) else st.wb.defaultStyle
  {
    var st1 := st.(count := st.count + 1);
    if Splits(w, st) {
      PaginationStepSplit(w, st1);
    } else {
      PaginationStepKeeps(w, st1);
    }
    WriteStepCursor(PaginationStep(w, st1), row);
  }

  /** Past the budget the record goes two rows below the start row of the
      new sheet, one written cell per pair from the start column. */
  lemma StepRecordSplit(w: Writer, st: WriteState, row: Row)
    requires Splits(w, st)
    ensures forall i :: 0 <= i < |row| ==>
              GetCell(Step(w, st, row).wb, SheetCount(st.wb), st.cur.columnStart + i, st.cur.rowStart + 2) ==
                Some(WrittenCell(st.cur.columnCollection, row[i], false))
  {
    var st1 := st.(count := st.count + 1);
    PaginationStepSplit(w, st1);
    WriteStepRecord(PaginationStep(w, st1), row);
  }

  /** Within the budget the record goes below the header row when one is
      due, else on the current row. */
  lemma StepRecordStay(w: Writer, st: WriteState, row: Row)
    requires !Splits(w, st)
    ensures forall i :: 0 <= i < |row| ==>
              GetCell(Step(w, st, row).wb, st.cur.sheet, st.cur.columnStart + i, st.cur.rowCurrent + if st.headingRow then 1 else 0) ==
                Some(WrittenCell(st.cur.columnCollection, row[i], false))
  {
    var st1 := st.(count := st.count + 1);
    PaginationStepKeeps(w, st1);
    WriteStepRecord(st1, row);
  }

  /** An iteration writes the record, one written cell per pair, from the
      start column along the record's row. */
  lemma StepRecord(w: Writer, st: WriteState, row: Row)
    ensures forall i :: 0 <= i < |row| ==>
              GetCell(Step(w, st, row).wb, StepSheet(w, st), st.cur.columnStart + i, StepRow(w, st)) ==
                Some(WrittenCell(st.cur.columnCollection, row[i], false))
  {
    if Splits(w, st) {
      StepRecordSplit(w, st, row);
    } else {
      StepRecordStay(w, st, row);
    }
  }

  /** On a split the new sheet gets the heading at the start row and column. */
  lemma StepHeading(w: Writer, st: WriteState, row: Row)
    requires Splits(w, st)
    ensures GetCell(Step(w, st, row).wb, SheetCount(st.wb), st.cur.columnStart, st.cur.rowStart) == Some(HeadingCell(st.cur.heading))
  {
    var st1 := st.(count := st.count + 1);
    PaginationStepSplit(w, st1);
    PaginationStepCells(w, st1);
    WriteStepFrame(PaginationStep(w, st1), row);
  }

  /** A header row is written when the record opens a fragment: on a split,
      or for the first record; it goes right above the record. */
  lemma StepHeader(w: Writer, st: WriteState, row: Row)
    requires (Splits(w, st) || st.headingRow) && DistinctKeys(row)
    ensures forall i :: 0 <= i < |row| ==>
              GetCell(Step(w, st, row).wb, StepSheet(w, st), st.cur.columnStart + i, StepRow(w, st) - 1) ==
                Some(Cell(Some(SanitizeString(ResolveHeader(st.cur.columnCollection, row[i].0).1)), TypeString))
  {
    var st1 := st.(count := st.count + 1);
    if Splits(w, st) {
      PaginationStepSplit(w, st1);
    } else {
      PaginationStepKeeps(w, st1);
    }
    WriteStepHeader(PaginationStep(w, st1), row);
  }

  /** With the header row, the record's columns get their widths. */
  lemma StepHeaderWidths(w: Writer, st: WriteState, row: Row)
    requires Splits(w, st) || st.headingRow
    ensures forall i :: 0 <= i < |row| ==>
              GetColumnWidth(Step(w, st, row).wb, StepSheet(w, st), st.cur.columnStart + i) ==
                Some(ResolveHeader(st.cur.columnCollection, row[i].0).0)
  {
    var st1 := st.(count := st.count + 1);
    if Splits(w, st) {
      PaginationStepSplit(w, st1);
    } else {
      PaginationStepKeeps(w, st1);
    }
    WriteStepHeaderWidths(PaginationStep(w, st1), row);
  }

  /** An iteration changes no cell on an existing sheet except on the
      current sheet from its current row down. */
  lemma StepFrame(w: Writer, st: WriteState, row: Row)
    ensures forall k: nat, c, rr :: k < SheetCount(st.wb) && (k != st.cur.sheet || rr < st.cur.rowCurrent) ==>
              GetCell(Step(w, st, row).wb, k, c, rr) == GetCell(st.wb, k, c, rr)
  {
    var st1 := st.(count := st.count + 1);
    if Splits(w, st) {
      PaginationStepSplit(w, st1);
    } else {
      PaginationStepKeeps(w, st1);
    }
    PaginationStepCells(w, st1);
    WriteStepFrame(PaginationStep(w, st1), row);
  }

  /** Widths change only on the record's sheet, and only with a header row. */
  lemma StepWidthsFrame(w: Writer, st: WriteState, row: Row)
    ensures forall k: nat, c :: k != StepSheet(w, st) || !(Splits(w, st) || st.headingRow) ==>
              GetColumnWidth(Step(w, st, row).wb, k, c) == GetColumnWidth(st.wb, k, c)
  {
    var st1 := st.(count := st.count + 1);
    if Splits(w, st) {
      PaginationStepSplit(w, st1);
      assert PaginationStep(w, st1).wb.columnWidths == st.wb.columnWidths;
    } else {
      PaginationStepKeeps(w, st1);
    }
    WriteStepWidths(PaginationStep(w, st1), row);
    assert Step(w, st, row) == WriteStep(PaginationStep(w, st1), row);
    forall k: nat, c | k != StepSheet(w, st) || !(Splits(w, st) || st.headingRow)
      ensures GetColumnWidth(Step(w, st, row).wb, k, c) == GetColumnWidth(st.wb, k, c)
    {
      assert GetColumnWidth(Step(w, st, row).wb, k, c) == GetColumnWidth(PaginationStep(w, st1).wb, k, c);
    }
  }
}
