/** What `writeTableToWorksheet` (lib/TableWriter.php:30-106) returns, for
    any workbook and table: the fragments it creates, where every record,
    header row, heading and column width ends up, the titles, the frozen
    panes, the empty-table message and the default style. Placement is
    stated against the reference model `Pagination.Slot`, with the table's
    current row as the first heading row. */
module WriterOutput {
  import opened Wrappers
  import opened PhpStrings
  import opened CellStyles
  import opened Columns
  import opened Workbooks
  import opened Tables
  import opened TableWriter
  import opened Pagination
  import opened WriterSteps
  import opened WriterProperties

  // ---------------------------------------------------------------------------
  // Before and after the loop
  // ---------------------------------------------------------------------------

  /** The heading leaves the loop's start state: the table's cursor one row
      down in the start column, the heading cell written, the default style
      set, nothing else changed. */
  lemma InitialStateSpec(wb: Workbook, table: Table)
    requires table.sheet < SheetCount(wb)
    ensures var st0 := InitialState(wb, table);
      && Starts(st0) && st0.count == 0
      && st0.cur.sheet == table.sheet && Carries(table, st0.cur) && SameConfig(table, st0.cur)
      && st0.cur.rowCurrent == table.rowCurrent + 1 && st0.cur.columnCurrent == table.columnStart
      && st0.cur.dataRowStart == table.dataRowStart && st0.wb.rowHeights == wb.rowHeights
      && SheetCount(st0.wb) == SheetCount(wb)
      && st0.wb.titles == wb.titles && st0.wb.freezes == wb.freezes && st0.wb.columnWidths == wb.columnWidths
      && st0.wb.defaultStyle == DefaultStyle(Some(table.fontSize), true)
      && GetCell(st0.wb, table.sheet, table.columnStart, table.rowCurrent) == Some(HeadingCell(table.heading))
      && (forall k: nat, c, rr :: k != table.sheet || c != table.columnStart || rr != table.rowCurrent ==>
            GetCell(st0.wb, k, c, rr) == GetCell(wb, k, c, rr))
  {
    WriteTableHeadingCursor(wb, table);
    WriteTableHeadingCell(wb, table);
    WriteTableHeadingFrame(wb, table);
    WriteTableHeadingStyle(wb, table);
    WriteTableHeadingParts(wb, table);
  }

  /** After the loop the fragments are returned as they are, except that the
      last one gets the count (and, with no data, two more rows); only the
      titles, the panes and, with no data, the cells can change. */
  lemma FinishFragments(w: Writer, st: WriteState)
    requires SheetsExist(st)
    ensures var r := Finish(w, st);
      && (forall j :: 0 <= j < |st.done| ==> r.1[j] == st.done[j])
      && r.1[|st.done|].sheet == st.cur.sheet && Carries(st.cur, r.1[|st.done|])
      && r.1[|st.done|].count == Some(st.count) && r.1[|st.done|].dataRowStart == st.cur.dataRowStart
      && SheetCount(r.0) == SheetCount(st.wb)
      && r.0.columnWidths == st.wb.columnWidths && r.0.rowHeights == st.wb.rowHeights
      && r.0.defaultStyle == st.wb.defaultStyle
  {
  }

  /** The cells after the loop: untouched when there was data; with none,
      the message written, as a string, one row below the current row. */
  lemma FinishCells(w: Writer, st: WriteState)
    requires SheetsExist(st)
    ensures st.count > 0 ==> Finish(w, st).0.cells == st.wb.cells
    ensures st.count == 0 ==>
      && GetCell(Finish(w, st).0, st.cur.sheet, st.cur.columnCurrent, st.cur.rowCurrent + 1) ==
           Some(Cell(Some(w.emptyTableMessage), TypeString))
      && (forall k: nat, c, rr :: k != st.cur.sheet || c != st.cur.columnCurrent || rr != st.cur.rowCurrent + 1 ==>
            GetCell(Finish(w, st).0, k, c, rr) == GetCell(st.wb, k, c, rr))
  {
    var tables := Fragments(st);
    var wb1 :=
      if |tables| > 1 then RenameFrom(st.wb, tables, Prefix(st.wb.titles[tables[0].sheet], TITLE_PREFIX_LENGTH), 0)
      else st.wb;
    var wb2 := if st.cur.freezePanes then FreezeFrom(wb1, tables, 0) else wb1;
    if st.count == 0 {
      var t1 := IncrementRow(st.cur);
      SetCellSpec(wb2, t1.sheet, t1.columnCurrent, t1.rowCurrent, Cell(Some(w.emptyTableMessage), TypeString));
    }
  }

  /** With more than one fragment every fragment's sheet is renamed after
      the first 21 characters of the first one's title, numbered from 1, and
      every other sheet keeps its title; with one fragment no title changes. */
  lemma FinishTitles(w: Writer, st: WriteState)
    requires SheetsExist(st) && DistinctSheets(Fragments(st))
    ensures var (r, tables) := (Finish(w, st).0, Fragments(st));
      && (|tables| > 1 ==>
            && (forall j :: 0 <= j < |tables| ==>
                  r.titles[tables[j].sheet] == FragmentTitle(Prefix(st.wb.titles[tables[0].sheet], TITLE_PREFIX_LENGTH), j + 1, |tables|))
            && (forall k :: 0 <= k < SheetCount(st.wb) && !FragmentSheetFrom(tables, 0, k) ==> r.titles[k] == st.wb.titles[k]))
      && (|tables| == 1 ==> r.titles == st.wb.titles)
  {
    var tables := Fragments(st);
    if |tables| > 1 {
      RenameFromSpec(st.wb, tables, Prefix(st.wb.titles[tables[0].sheet], TITLE_PREFIX_LENGTH), 0);
    }
  }

  /** When the last fragment keeps its freeze-panes flag, every fragment's
      sheet gets its pane frozen in the first column two rows below the
      fragment's start row, and no other sheet changes; otherwise no pane
      changes. */
  lemma FinishFreezes(w: Writer, st: WriteState)
    requires SheetsExist(st) && DistinctSheets(Fragments(st))
    ensures var (r, tables) := (Finish(w, st).0, Fragments(st));
      && (st.cur.freezePanes ==>
            && (forall j :: 0 <= j < |tables| ==> GetFreeze(r, tables[j].sheet) == Some((FREEZE_COLUMN, 2 + tables[j].rowStart)))
            && (forall k: nat :: !FragmentSheetFrom(tables, 0, k) ==> GetFreeze(r, k) == GetFreeze(st.wb, k)))
      && (!st.cur.freezePanes ==> r.freezes == st.wb.freezes)
  {
    var tables := Fragments(st);
    var wb1 :=
      if |tables| > 1 then RenameFrom(st.wb, tables, Prefix(st.wb.titles[tables[0].sheet], TITLE_PREFIX_LENGTH), 0)
      else st.wb;
    if st.cur.freezePanes {
      FreezeFromSpec(wb1, tables, 0);
    }
  }

  // ---------------------------------------------------------------------------
  // The whole call
  // ---------------------------------------------------------------------------

  /** The sheet of fragment f: the table's own for the first, then the
      sheets appended to the workbook, in order. */
  function OutputSheet(wb: Workbook, table: Table, f: nat): nat {
    if f == 0 then table.sheet else SheetCount(wb) + f - 1
  }

  /** The fragment and row of record k: the reference model with the
      table's current row as the first heading row and its start row as
      every later fragment's. */
  function Place(w: Writer, table: Table, k: nat): (nat, int) {
    Slot(w.rowsPerSheet, table.rowCurrent, table.rowStart, k)
  }

  /** The call is the loop from the heading's state, then `Finish`, and the
      loop's reference model is the table's. */
  lemma OutputSetup(w: Writer, wb: Workbook, table: Table)
    requires table.sheet < SheetCount(wb)
    ensures var st0 := InitialState(wb, table);
      var st := Run(w, st0, table.data, |table.data|);
      && Starts(st0) && SheetsExist(st) && st.count == |table.data|
      && WriteTableToWorksheet(w, wb, table) == Finish(w, st)
      && st0.cur.rowCurrent - 1 == table.rowCurrent && st0.cur.rowStart == table.rowStart
      && st0.cur.sheet == table.sheet && SheetCount(st0.wb) == SheetCount(wb)
      && Carries(table, st0.cur) && SameConfig(table, st0.cur)
  {
    var st0 := InitialState(wb, table);
    InitialStateSpec(wb, table);
    WriteTableHeadingParts(wb, table);
    RunKeepsSheets(w, st0, table.data, |table.data|);
    RunShape(w, st0, table.data, |table.data|);
  }

  /** Fragment j sits on sheet `OutputSheet(j)` and keeps the table's start,
      content and configuration. */
  predicate LaidOut(wb: Workbook, table: Table, tables: seq<Table>) {
    forall j :: 0 <= j < |tables| ==> tables[j].sheet == OutputSheet(wb, table, j) && Carries(table, tables[j])
  }

  /** The loop, seen from the table: the fragments it leaves, the sheets it
      appends and the parts of the workbook `Finish` reads. */
  lemma LoopSummary(w: Writer, wb: Workbook, table: Table)
    requires table.sheet < SheetCount(wb)
    ensures var st := Run(w, InitialState(wb, table), table.data, |table.data|);
      && SheetsExist(st) && st.count == |table.data|
      && WriteTableToWorksheet(w, wb, table) == Finish(w, st)
      && |Fragments(st)| == FragmentCount(w.rowsPerSheet, table.rowCurrent, table.rowStart, |table.data|)
      && SheetCount(st.wb) == SheetCount(wb) + |st.done|
      && LaidOut(wb, table, Fragments(st)) && DistinctSheets(Fragments(st))
      && st.cur.freezePanes == table.freezePanes
      && st.wb.freezes == wb.freezes
      && (forall k :: 0 <= k < SheetCount(wb) ==> st.wb.titles[k] == wb.titles[k])
      && st.wb.defaultStyle ==
           DefaultStyle(Some(if |Fragments(st)| > 1 then DEFAULT_FONT_SIZE else table.fontSize), true)
  {
    var st0 := InitialState(wb, table);
    var n := |table.data|;
    var st := Run(w, st0, table.data, n);
    var ts := Fragments(st);
    OutputSetup(w, wb, table);
    InitialStateSpec(wb, table);
    RunFragments(w, st0, table.data, n);
    RunParts(w, st0, table.data, n);
    forall j | 0 <= j < |ts|
      ensures ts[j].sheet == OutputSheet(wb, table, j) && Carries(table, ts[j])
    {
      assert ts[j].sheet == FragmentSheet(st0, j) && Carries(st0.cur, ts[j]);
    }
    assert Carries(table, ts[|st.done|]);
  }

  /** `Finish` keeps the fragments where they are. */
  lemma FinishLaidOut(w: Writer, wb: Workbook, table: Table, st: WriteState)
    requires SheetsExist(st) && LaidOut(wb, table, Fragments(st))
    ensures LaidOut(wb, table, Finish(w, st).1)
  {
    FinishFragments(w, st);
    var ts := Fragments(st);
    var tables := Finish(w, st).1;
    forall j | 0 <= j < |tables|
      ensures tables[j].sheet == OutputSheet(wb, table, j) && Carries(table, tables[j])
    {
      if j < |st.done| {
        assert ts[j] == st.done[j];
      }
      assert ts[j].sheet == OutputSheet(wb, table, j) && Carries(table, ts[j]);
    }
  }

  /** The sheets that were there before, except the table's, hold no fragment. */
  lemma OutsideFragments(wb: Workbook, table: Table, tables: seq<Table>, k: nat)
    requires LaidOut(wb, table, tables) && k < SheetCount(wb) && k != table.sheet
    ensures !FragmentSheetFrom(tables, 0, k)
  {
    forall j | 0 <= j < |tables| ensures tables[j].sheet != k {
      assert tables[j].sheet == OutputSheet(wb, table, j);
    }
  }

  /** `writeTableToWorksheet` returns one fragment per fragment the reference
      model opens, the first on the table's sheet and the others on the
      sheets it appends, each with the table's start, content and
      configuration. Only the last one is counted, with the number of
      records: the first keeps the table's count and every later one has
      none, so `count()` on it fails. */
  lemma OutputFragments(w: Writer, wb: Workbook, table: Table)
    requires table.sheet < SheetCount(wb)
    ensures var (out, tables) := WriteTableToWorksheet(w, wb, table);
      && |tables| == FragmentCount(w.rowsPerSheet, table.rowCurrent, table.rowStart, |table.data|)
      && SheetCount(out) == SheetCount(wb) + |tables| - 1
      && LaidOut(wb, table, tables)
      && tables[|tables| - 1].count == Some(|table.data|)
      && forall j :: 0 <= j < |tables| - 1 ==> tables[j].count == if j == 0 then table.count else None
  {
    var st0 := InitialState(wb, table);
    var st := Run(w, st0, table.data, |table.data|);
    LoopSummary(w, wb, table);
    FinishFragments(w, st);
    FinishLaidOut(w, wb, table, st);
    OutputSetup(w, wb, table);
    RunCounts(w, st0, table.data, |table.data|);
    var tables := WriteTableToWorksheet(w, wb, table).1;
    forall j | 0 <= j < |tables| - 1
      ensures tables[j].count == if j == 0 then table.count else None
    {
      assert tables[j] == Fragments(st)[j];
    }
  }

  /** Record k (from 0) ends up on the sheet of fragment `Place(k).0`, on
      row `Place(k).1`, its i-th pair written (sanitized, typed by its
      column's style) in column `columnStart + i`. */
  lemma OutputRecords(w: Writer, wb: Workbook, table: Table, k: nat, i: nat)
    requires table.sheet < SheetCount(wb) && k < |table.data| && i < |table.data[k]|
    ensures var p := Place(w, table, k);
      GetCell(WriteTableToWorksheet(w, wb, table).0, OutputSheet(wb, table, p.0), table.columnStart + i, p.1) ==
        Some(WrittenCell(table.columnCollection, table.data[k][i], false))
  {
    var st0 := InitialState(wb, table);
    var st := Run(w, st0, table.data, |table.data|);
    OutputSetup(w, wb, table);
    RunRecordPlaced(w, st0, table.data, |table.data|, k, i);
    FinishCells(w, st);
  }

  /** The record that opens a fragment has the header row right above it:
      the title of each of its keys, sanitized, as a string. */
  lemma OutputHeaders(w: Writer, wb: Workbook, table: Table, k: nat, i: nat)
    requires table.sheet < SheetCount(wb) && k < |table.data| && i < |table.data[k]| && DistinctKeys(table.data[k])
    requires OpensFragment(w.rowsPerSheet, table.rowCurrent, table.rowStart, k)
    ensures var p := Place(w, table, k);
      GetCell(WriteTableToWorksheet(w, wb, table).0, OutputSheet(wb, table, p.0), table.columnStart + i, p.1 - 1) ==
        Some(Cell(Some(SanitizeString(ResolveHeader(table.columnCollection, table.data[k][i].0).1)), TypeString))
  {
    var st0 := InitialState(wb, table);
    var st := Run(w, st0, table.data, |table.data|);
    OutputSetup(w, wb, table);
    RunHeaderPlaced(w, st0, table.data, |table.data|, k, i);
    FinishCells(w, st);
  }

  /** The columns of the record that opens a fragment get the widths its
      keys resolve to, on that fragment's sheet. */
  lemma OutputWidths(w: Writer, wb: Workbook, table: Table, k: nat, i: nat)
    requires table.sheet < SheetCount(wb) && k < |table.data| && i < |table.data[k]|
    requires OpensFragment(w.rowsPerSheet, table.rowCurrent, table.rowStart, k)
    ensures var p := Place(w, table, k);
      GetColumnWidth(WriteTableToWorksheet(w, wb, table).0, OutputSheet(wb, table, p.0), table.columnStart + i) ==
        Some(ResolveHeader(table.columnCollection, table.data[k][i].0).0)
  {
    var st0 := InitialState(wb, table);
    var st := Run(w, st0, table.data, |table.data|);
    OutputSetup(w, wb, table);
    RunWidthsPlaced(w, st0, table.data, |table.data|, k, i);
    FinishFragments(w, st);
  }

  /** The finishing steps touch no cell behind the cursor. */
  lemma FinishBehind(w: Writer, st: WriteState, k: nat, c: int, rr: int)
    requires SheetsExist(st) && Behind(st, k, rr)
    ensures GetCell(Finish(w, st).0, k, c, rr) == GetCell(st.wb, k, c, rr)
  {
    FinishCells(w, st);
  }

  /** Every fragment has its heading in its start column: the first on the
      table's current row, every later one on the table's start row. */
  lemma OutputHeadings(w: Writer, wb: Workbook, table: Table, j: nat)
    requires table.sheet < SheetCount(wb)
    requires j < FragmentCount(w.rowsPerSheet, table.rowCurrent, table.rowStart, |table.data|)
    ensures GetCell(WriteTableToWorksheet(w, wb, table).0, OutputSheet(wb, table, j), table.columnStart,
                    if j == 0 then table.rowCurrent else table.rowStart) == Some(HeadingCell(table.heading))
  {
    if j == 0 {
      FirstHeading(w, wb, table);
    } else {
      LaterHeading(w, wb, table, j);
    }
  }

  lemma FirstHeading(w: Writer, wb: Workbook, table: Table)
    requires table.sheet < SheetCount(wb)
    ensures GetCell(WriteTableToWorksheet(w, wb, table).0, table.sheet, table.columnStart, table.rowCurrent) ==
              Some(HeadingCell(table.heading))
  {
    var st0 := InitialState(wb, table);
    var n := |table.data|;
    OutputSetup(w, wb, table);
    InitialStateSpec(wb, table);
    RunKeepsBehind(w, st0, table.data, 0, n, table.sheet, table.columnStart, table.rowCurrent);
    FinishBehind(w, Run(w, st0, table.data, n), table.sheet, table.columnStart, table.rowCurrent);
  }

  lemma LaterHeading(w: Writer, wb: Workbook, table: Table, j: nat)
    requires table.sheet < SheetCount(wb)
    requires 0 < j < FragmentCount(w.rowsPerSheet, table.rowCurrent, table.rowStart, |table.data|)
    ensures GetCell(WriteTableToWorksheet(w, wb, table).0, SheetCount(wb) + j - 1, table.columnStart, table.rowStart) ==
              Some(HeadingCell(table.heading))
  {
    var st0 := InitialState(wb, table);
    var n := |table.data|;
    OutputSetup(w, wb, table);
    RunLaterHeadings(w, st0, table.data, n, j);
    FinishBehind(w, Run(w, st0, table.data, n), SheetCount(wb) + j - 1, table.columnStart, table.rowStart);
  }

  /** Nothing is written on the other sheets that were there before, nor
      above the heading on the table's own sheet. */
  lemma OutputFrame(w: Writer, wb: Workbook, table: Table, k: nat, c: int, rr: int)
    requires table.sheet < SheetCount(wb) && k < SheetCount(wb)
    requires k != table.sheet || rr < table.rowCurrent
    ensures GetCell(WriteTableToWorksheet(w, wb, table).0, k, c, rr) == GetCell(wb, k, c, rr)
  {
    var st0 := InitialState(wb, table);
    var n := |table.data|;
    OutputSetup(w, wb, table);
    InitialStateSpec(wb, table);
    RunKeepsBehind(w, st0, table.data, 0, n, k, c, rr);
    FinishBehind(w, Run(w, st0, table.data, n), k, c, rr);
  }

  /** Sheets the call leaves alone keep their titles; with more than one
      fragment every fragment's sheet is titled after the first 21
      characters of the table's sheet title and numbered `(j|n)`; with one
      fragment no title changes. */
  lemma OutputTitles(w: Writer, wb: Workbook, table: Table)
    requires table.sheet < SheetCount(wb)
    ensures var (out, tables) := WriteTableToWorksheet(w, wb, table);
      && SheetCount(out) == SheetCount(wb) + |tables| - 1
      && (|tables| > 1 ==>
            && (forall j :: 0 <= j < |tables| ==>
                  out.titles[OutputSheet(wb, table, j)] ==
                    FragmentTitle(Prefix(wb.titles[table.sheet], TITLE_PREFIX_LENGTH), j + 1, |tables|))
            && (forall k :: 0 <= k < SheetCount(wb) && k != table.sheet ==> out.titles[k] == wb.titles[k]))
      && (|tables| == 1 ==> out.titles == wb.titles)
  {
    LoopSummary(w, wb, table);
    FinishTitlesLaidOut(w, wb, table, Run(w, InitialState(wb, table), table.data, |table.data|));
  }

  /** `FinishTitles` for fragments laid out as the loop leaves them. */
  lemma FinishTitlesLaidOut(w: Writer, wb: Workbook, table: Table, st: WriteState)
    requires table.sheet < SheetCount(wb)
    requires SheetsExist(st) && LaidOut(wb, table, Fragments(st)) && DistinctSheets(Fragments(st))
    requires SheetCount(st.wb) == SheetCount(wb) + |st.done|
    requires forall k :: 0 <= k < SheetCount(wb) ==> st.wb.titles[k] == wb.titles[k]
    ensures var (out, tables) := Finish(w, st);
      && SheetCount(out) == SheetCount(wb) + |tables| - 1
      && (|tables| > 1 ==>
            && (forall j :: 0 <= j < |tables| ==>
                  out.titles[OutputSheet(wb, table, j)] ==
                    FragmentTitle(Prefix(wb.titles[table.sheet], TITLE_PREFIX_LENGTH), j + 1, |tables|))
            && (forall k :: 0 <= k < SheetCount(wb) && k != table.sheet ==> out.titles[k] == wb.titles[k]))
      && (|tables| == 1 ==> out.titles == wb.titles)
  {
    var ts := Fragments(st);
    FinishTitles(w, st);
    FinishFragments(w, st);
    var out := Finish(w, st).0;
    if |ts| > 1 {
      assert ts[0].sheet == table.sheet;
      forall j | 0 <= j < |ts|
        ensures out.titles[OutputSheet(wb, table, j)] ==
          FragmentTitle(Prefix(wb.titles[table.sheet], TITLE_PREFIX_LENGTH), j + 1, |ts|)
      {
        assert ts[j].sheet == OutputSheet(wb, table, j);
      }
      forall k | 0 <= k < SheetCount(wb) && k != table.sheet
        ensures out.titles[k] == wb.titles[k]
      {
        OutsideFragments(wb, table, ts, k);
      }
    } else {
      assert st.wb.titles == wb.titles;
    }
  }

  /** With the table's freeze-panes flag set every fragment's sheet gets its
      pane frozen in the first column two rows below the table's start row,
      and the other sheets keep theirs; without it no pane changes. */
  lemma OutputFreezes(w: Writer, wb: Workbook, table: Table)
    requires table.sheet < SheetCount(wb)
    ensures var (out, tables) := WriteTableToWorksheet(w, wb, table);
      && (table.freezePanes ==>
            && (forall j :: 0 <= j < |tables| ==>
                  GetFreeze(out, OutputSheet(wb, table, j)) == Some((FREEZE_COLUMN, 2 + table.rowStart)))
            && (forall k: nat :: k < SheetCount(wb) && k != table.sheet ==> GetFreeze(out, k) == GetFreeze(wb, k)))
      && (!table.freezePanes ==> out.freezes == wb.freezes)
  {
    LoopSummary(w, wb, table);
    FinishFreezesLaidOut(w, wb, table, Run(w, InitialState(wb, table), table.data, |table.data|));
  }

  /** `FinishFreezes` for fragments laid out as the loop leaves them. */
  lemma FinishFreezesLaidOut(w: Writer, wb: Workbook, table: Table, st: WriteState)
    requires SheetsExist(st) && LaidOut(wb, table, Fragments(st)) && DistinctSheets(Fragments(st))
    requires st.cur.freezePanes == table.freezePanes && st.wb.freezes == wb.freezes
    ensures var (out, tables) := Finish(w, st);
      && (table.freezePanes ==>
            && (forall j :: 0 <= j < |tables| ==>
                  GetFreeze(out, OutputSheet(wb, table, j)) == Some((FREEZE_COLUMN, 2 + table.rowStart)))
            && (forall k: nat :: k < SheetCount(wb) && k != table.sheet ==> GetFreeze(out, k) == GetFreeze(wb, k)))
      && (!table.freezePanes ==> out.freezes == wb.freezes)
  {
    var ts := Fragments(st);
    FinishFreezes(w, st);
    FinishFragments(w, st);
    var out := Finish(w, st).0;
    if table.freezePanes {
      forall j | 0 <= j < |ts|
        ensures GetFreeze(out, OutputSheet(wb, table, j)) == Some((FREEZE_COLUMN, 2 + table.rowStart))
      {
        assert ts[j].sheet == OutputSheet(wb, table, j) && Carries(table, ts[j]);
      }
      forall k: nat | k < SheetCount(wb) && k != table.sheet
        ensures GetFreeze(out, k) == GetFreeze(wb, k)
      {
        OutsideFragments(wb, table, ts, k);
      }
    }
  }

  /** A table without data is one fragment, counted zero, with no header
      row and no first data row: the message is written, as a string, two
      rows below the heading, the cursor ends one row further down, and no
      other cell changes but the heading's. */
  lemma OutputEmpty(w: Writer, wb: Workbook, table: Table)
    requires table.sheet < SheetCount(wb) && |table.data| == 0
    ensures var (out, tables) := WriteTableToWorksheet(w, wb, table);
      && |tables| == 1 && tables[0].count == Some(0)
      && tables[0].dataRowStart == table.dataRowStart && tables[0].rowCurrent == table.rowCurrent + 3
      && GetCell(out, table.sheet, table.columnStart, table.rowCurrent + 2) == Some(Cell(Some(w.emptyTableMessage), TypeString))
      && (forall k: nat, c, rr :: k != table.sheet || c != table.columnStart || (rr != table.rowCurrent && rr != table.rowCurrent + 2) ==>
            GetCell(out, k, c, rr) == GetCell(wb, k, c, rr))
  {
    var st0 := InitialState(wb, table);
    OutputSetup(w, wb, table);
    InitialStateSpec(wb, table);
    assert Run(w, st0, table.data, 0) == st0;
    FinishCells(w, st0);
    FinishFragments(w, st0);
  }

  /** The default style ends with the table's font size, or the default one
      once the table has been split, and the default row height on. */
  lemma OutputStyle(w: Writer, wb: Workbook, table: Table)
    requires table.sheet < SheetCount(wb)
    ensures var (out, tables) := WriteTableToWorksheet(w, wb, table);
      out.defaultStyle == DefaultStyle(Some(if |tables| > 1 then DEFAULT_FONT_SIZE else table.fontSize), true)
  {
    LoopSummary(w, wb, table);
    FinishFragments(w, Run(w, InitialState(wb, table), table.data, |table.data|));
  }

  /** Every fragment after the first flags its first data row two rows
      below its start row, under the heading and the header row; the first
      fragment flags the row two below the table's current row when it gets
      a record, and otherwise keeps what the table had. */
  lemma OutputDataRows(w: Writer, wb: Workbook, table: Table)
    requires table.sheet < SheetCount(wb)
    ensures var tables := WriteTableToWorksheet(w, wb, table).1;
      forall j :: 0 <= j < |tables| ==>
        tables[j].dataRowStart ==
          (if j > 0 then Some(table.rowStart + 2)
           else if |table.data| > 0 && Place(w, table, 0).0 == 0 then Some(table.rowCurrent + 2)
           else table.dataRowStart)
  {
    var st0 := InitialState(wb, table);
    var st := Run(w, st0, table.data, |table.data|);
    OutputSetup(w, wb, table);
    InitialStateSpec(wb, table);
    RunDataRows(w, st0, table.data, |table.data|);
    FinishFragments(w, st);
    var tables := WriteTableToWorksheet(w, wb, table).1;
    var ts := Fragments(st);
    forall j | 0 <= j < |tables|
      ensures tables[j].dataRowStart == ts[j].dataRowStart
    {
      if j < |st.done| {
        assert ts[j] == st.done[j];
      }
    }
  }

  /** With a row height configured, the first fragment's header row and
      record rows get it and no other row does: a split resets the height,
      so later fragments get none. Without one no height changes. */
  lemma OutputRowHeights(w: Writer, wb: Workbook, table: Table)
    requires table.sheet < SheetCount(wb)
    ensures var out := WriteTableToWorksheet(w, wb, table).0;
      forall k: nat, rr :: GetRowHeight(out, k, rr) ==
        if table.rowHeight.Some? && k == table.sheet
           && table.rowCurrent + 1 <= rr < FirstFragmentEnd(w.rowsPerSheet, table.rowCurrent, |table.data|)
        then table.rowHeight else GetRowHeight(wb, k, rr)
  {
    var st0 := InitialState(wb, table);
    var st := Run(w, st0, table.data, |table.data|);
    OutputSetup(w, wb, table);
    InitialStateSpec(wb, table);
    RunHeights(w, st0, table.data, |table.data|);
    FinishFragments(w, st);
    var out := WriteTableToWorksheet(w, wb, table).0;
    assert st0.cur.rowHeight == table.rowHeight;
    forall k: nat, rr
      ensures GetRowHeight(out, k, rr) ==
        if table.rowHeight.Some? && k == table.sheet
           && table.rowCurrent + 1 <= rr < FirstFragmentEnd(w.rowsPerSheet, table.rowCurrent, |table.data|)
        then table.rowHeight else GetRowHeight(wb, k, rr)
    {
      assert GetRowHeight(out, k, rr) == GetRowHeight(st.wb, k, rr);
      assert GetRowHeight(st0.wb, k, rr) == GetRowHeight(wb, k, rr);
    }
  }

  /** The other sheets that were there before keep their column widths. */
  lemma OutputWidthsFrame(w: Writer, wb: Workbook, table: Table, k: nat, c: int)
    requires table.sheet < SheetCount(wb) && k < SheetCount(wb) && k != table.sheet
    ensures GetColumnWidth(WriteTableToWorksheet(w, wb, table).0, k, c) == GetColumnWidth(wb, k, c)
  {
    var st0 := InitialState(wb, table);
    var n := |table.data|;
    OutputSetup(w, wb, table);
    InitialStateSpec(wb, table);
    if n > 0 {
      FirstStepWidths(w, st0, table.data, k, c);
      RunKeepsSettled(w, st0, table.data, 1, n, k, c);
    }
    FinishFragments(w, Run(w, st0, table.data, n));
  }
}
