/** What the whole loop of `writeTableToWorksheet` (lib/TableWriter.php:37-55)
    does, stated against the row-only reference model `Pagination.Slot`:
    record k lands on the sheet of fragment `Slot(k).0`, on row
    `Slot(k).1`, and nothing later overwrites it. The loop is taken from any
    state shaped like the one after the heading (`Starts`). */
module WriterProperties {
  import opened Wrappers
  import opened PhpStrings
  import opened CellStyles
  import opened Workbooks
  import opened Tables
  import opened TableWriter
  import opened Pagination
  import opened WriterSteps

  /** The loop's start: the heading written, no fragment filed, a header row
      due, the current sheet existing. */
  predicate Starts(st0: WriteState) {
    st0.done == [] && st0.headingRow && st0.cur.sheet < SheetCount(st0.wb)
  }

  /** Fragment and row of record k, for a loop started at `st0`: the heading
      sits on the row above `st0`'s current row. */
  function RecordSlot(w: Writer, st0: WriteState, k: nat): (nat, int) {
    Slot(w.rowsPerSheet, st0.cur.rowCurrent - 1, st0.cur.rowStart, k)
  }

  /** The sheet of fragment f: the table's own for the first, then the
      sheets the splits append, in order. */
  function FragmentSheet(st0: WriteState, f: nat): nat {
    if f == 0 then st0.cur.sheet else SheetCount(st0.wb) + f - 1
  }

  /** The loop state after k > 0 records: the fragment and row below the
      last record, as the reference model places it. */
  predicate ShapedAfter(w: Writer, st0: WriteState, st: WriteState, k: nat)
    requires k > 0
  {
    var s := RecordSlot(w, st0, k - 1);
    && |st.done| == s.0 && st.cur.sheet == FragmentSheet(st0, s.0)
    && st.cur.rowCurrent == s.1 + 1 && !st.headingRow
    && SheetCount(st.wb) == SheetCount(st0.wb) + s.0
  }

  /** Every filed fragment sits on its own sheet and keeps the table's
      start, content and configuration. */
  predicate FiledFragments(st0: WriteState, st: WriteState) {
    forall j :: 0 <= j < |st.done| ==> st.done[j].sheet == FragmentSheet(st0, j) && Carries(st0.cur, st.done[j])
  }

  /** One iteration keeps the loop shaped as the reference model says,
      whether or not the record opens a fragment. */
  lemma ShapeStep(w: Writer, st0: WriteState, st: WriteState, row: Row, k: nat)
    requires Starts(st0) && Carries(st0.cur, st.cur) && FiledFragments(st0, st)
    requires k == 0 ==> st == st0
    requires k > 0 ==> ShapedAfter(w, st0, st, k)
    ensures var r := Step(w, st, row);
      && r.count == st.count + 1
      && Carries(st0.cur, r.cur) && ShapedAfter(w, st0, r, k + 1) && FiledFragments(st0, r)
  {
    StepCursor(w, st, row);
    if k > 0 {
      SlotStep(w.rowsPerSheet, st0.cur.rowCurrent - 1, st0.cur.rowStart, k - 1);
    }
  }

  /** The loop after k records: k counted, the cursor shaped by the
      reference model, every fragment on its sheet. */
  lemma {:induction false} RunShape(w: Writer, st0: WriteState, rows: seq<Row>, k: nat)
    requires Starts(st0) && k <= |rows|
    ensures var st := Run(w, st0, rows, k);
      && st.count == st0.count + k
      && Carries(st0.cur, st.cur) && FiledFragments(st0, st)
      && (k > 0 ==> ShapedAfter(w, st0, st, k))
    decreases k
  {
    if k > 0 {
      RunShape(w, st0, rows, k - 1);
      ShapeStep(w, st0, Run(w, st0, rows, k - 1), rows[k - 1], k - 1);
    }
  }

  // ---------------------------------------------------------------------------
  // What the loop leaves behind it
  // ---------------------------------------------------------------------------

  /** Row rr of sheet k lies behind the cursor of `st`: the sheet exists and
      is not the current one, or the row is above the current row. */
  predicate Behind(st: WriteState, k: nat, rr: int) {
    k < SheetCount(st.wb) && (k != st.cur.sheet || rr < st.cur.rowCurrent)
  }

  /** An iteration writes nothing behind the cursor, and what is behind
      stays behind. */
  lemma BehindStep(w: Writer, st: WriteState, row: Row, k: nat, c: int, rr: int)
    requires Behind(st, k, rr)
    ensures Behind(Step(w, st, row), k, rr)
    ensures GetCell(Step(w, st, row).wb, k, c, rr) == GetCell(st.wb, k, c, rr)
  {
    StepCursor(w, st, row);
    StepFrame(w, st, row);
  }

  /** The loop never comes back to a cell behind its cursor. */
  lemma {:induction false} RunKeepsBehind(w: Writer, st0: WriteState, rows: seq<Row>, m: nat, n: nat, k: nat, c: int, rr: int)
    requires m <= n <= |rows| && Behind(Run(w, st0, rows, m), k, rr)
    ensures Behind(Run(w, st0, rows, n), k, rr)
    ensures GetCell(Run(w, st0, rows, n).wb, k, c, rr) == GetCell(Run(w, st0, rows, m).wb, k, c, rr)
    decreases n
  {
    if m < n {
      RunKeepsBehind(w, st0, rows, m, n - 1, k, c, rr);
      BehindStep(w, Run(w, st0, rows, n - 1), rows[n - 1], k, c, rr);
    }
  }

  // ---------------------------------------------------------------------------
  // Where the records go
  // ---------------------------------------------------------------------------

  /** The shape the loop has before record k: the start state for the
      first record, the reference model's shape for the others. */
  predicate ShapedBefore(w: Writer, st0: WriteState, st: WriteState, k: nat) {
    && Starts(st0) && Carries(st0.cur, st.cur) && FiledFragments(st0, st)
    && (k == 0 ==> st == st0)
    && (k > 0 ==> ShapedAfter(w, st0, st, k))
  }

  /** An iteration on a shaped state writes on the sheet and row the
      reference model gives record k, and moves the cursor below it. */
  lemma StepAtSlot(w: Writer, st0: WriteState, st: WriteState, row: Row, k: nat)
    requires ShapedBefore(w, st0, st, k)
    ensures var (s, r) := (RecordSlot(w, st0, k), Step(w, st, row));
      && StepSheet(w, st) == FragmentSheet(st0, s.0) && StepRow(w, st) == s.1
      && r.cur.sheet == FragmentSheet(st0, s.0) && r.cur.rowCurrent == s.1 + 1
      && FragmentSheet(st0, s.0) < SheetCount(r.wb)
  {
    ShapeStep(w, st0, st, row, k);
    StepCursor(w, st, row);
  }

  /** An iteration on a shaped state writes its record where the reference
      model puts record k, and leaves it behind the cursor. */
  lemma RecordStepPlaced(w: Writer, st0: WriteState, st: WriteState, row: Row, k: nat, i: nat)
    requires ShapedBefore(w, st0, st, k) && i < |row|
    ensures var s := RecordSlot(w, st0, k);
      && GetCell(Step(w, st, row).wb, FragmentSheet(st0, s.0), st0.cur.columnStart + i, s.1) ==
           Some(WrittenCell(st0.cur.columnCollection, row[i], false))
      && Behind(Step(w, st, row), FragmentSheet(st0, s.0), s.1)
  {
    StepAtSlot(w, st0, st, row, k);
    StepRecord(w, st, row);
  }

  /** Right after its iteration, record k (from 0) sits, one written cell
      per pair from the start column, on the sheet of fragment `Slot(k).0`
      at row `Slot(k).1`, behind the cursor. */
  lemma RecordWritten(w: Writer, st0: WriteState, rows: seq<Row>, k: nat, i: nat)
    requires Starts(st0) && k < |rows| && i < |rows[k]|
    ensures var s := RecordSlot(w, st0, k);
      && GetCell(Run(w, st0, rows, k + 1).wb, FragmentSheet(st0, s.0), st0.cur.columnStart + i, s.1) ==
           Some(WrittenCell(st0.cur.columnCollection, rows[k][i], false))
      && Behind(Run(w, st0, rows, k + 1), FragmentSheet(st0, s.0), s.1)
  {
    RunShape(w, st0, rows, k);
    RecordStepPlaced(w, st0, Run(w, st0, rows, k), rows[k], k, i);
  }

  /** Record k stays where it was written whatever the loop writes after it. */
  lemma {:induction false} RunRecordPlaced(w: Writer, st0: WriteState, rows: seq<Row>, n: nat, k: nat, i: nat)
    requires Starts(st0) && k < n <= |rows| && i < |rows[k]|
    ensures var s := RecordSlot(w, st0, k);
      && GetCell(Run(w, st0, rows, n).wb, FragmentSheet(st0, s.0), st0.cur.columnStart + i, s.1) ==
           Some(WrittenCell(st0.cur.columnCollection, rows[k][i], false))
      && Behind(Run(w, st0, rows, n), FragmentSheet(st0, s.0), s.1)
    decreases n
  {
    var s := RecordSlot(w, st0, k);
    if n == k + 1 {
      RecordWritten(w, st0, rows, k, i);
    } else {
      RunRecordPlaced(w, st0, rows, n - 1, k, i);
      BehindStep(w, Run(w, st0, rows, n - 1), rows[n - 1], FragmentSheet(st0, s.0), st0.cur.columnStart + i, s.1);
    }
  }

  // ---------------------------------------------------------------------------
  // Header rows, headings and column widths
  // ---------------------------------------------------------------------------

  /** Record k opens a fragment in the reference model exactly when its
      iteration writes a header row: on a split, or for the first record. */
  lemma OpensIffHeader(w: Writer, st0: WriteState, st: WriteState, k: nat)
    requires ShapedBefore(w, st0, st, k)
    ensures OpensFragment(w.rowsPerSheet, st0.cur.rowCurrent - 1, st0.cur.rowStart, k) <==> (Splits(w, st) || st.headingRow)
    ensures k > 0 ==> (OpensFragment(w.rowsPerSheet, st0.cur.rowCurrent - 1, st0.cur.rowStart, k) <==> Splits(w, st))
  {
    if k > 0 {
      SlotStep(w.rowsPerSheet, st0.cur.rowCurrent - 1, st0.cur.rowStart, k - 1);
    }
  }

  /** An iteration that opens a fragment writes the header row right above
      its record, and leaves it behind the cursor. */
  lemma HeaderStepPlaced(w: Writer, st0: WriteState, st: WriteState, row: Row, k: nat, i: nat)
    requires ShapedBefore(w, st0, st, k) && i < |row| && DistinctKeys(row)
    requires OpensFragment(w.rowsPerSheet, st0.cur.rowCurrent - 1, st0.cur.rowStart, k)
    ensures var s := RecordSlot(w, st0, k);
      && GetCell(Step(w, st, row).wb, FragmentSheet(st0, s.0), st0.cur.columnStart + i, s.1 - 1) ==
           Some(Cell(Some(SanitizeString(ResolveHeader(st0.cur.columnCollection, row[i].0).1)), TypeString))
      && Behind(Step(w, st, row), FragmentSheet(st0, s.0), s.1 - 1)
  {
    OpensIffHeader(w, st0, st, k);
    StepAtSlot(w, st0, st, row, k);
    StepHeader(w, st, row);
  }

  /** Right after its iteration, the header row of a record that opens a
      fragment sits right above it. */
  lemma HeaderWritten(w: Writer, st0: WriteState, rows: seq<Row>, k: nat, i: nat)
    requires Starts(st0) && k < |rows| && i < |rows[k]| && DistinctKeys(rows[k])
    requires OpensFragment(w.rowsPerSheet, st0.cur.rowCurrent - 1, st0.cur.rowStart, k)
    ensures var s := RecordSlot(w, st0, k);
      && GetCell(Run(w, st0, rows, k + 1).wb, FragmentSheet(st0, s.0), st0.cur.columnStart + i, s.1 - 1) ==
           Some(Cell(Some(SanitizeString(ResolveHeader(st0.cur.columnCollection, rows[k][i].0).1)), TypeString))
      && Behind(Run(w, st0, rows, k + 1), FragmentSheet(st0, s.0), s.1 - 1)
  {
    RunShape(w, st0, rows, k);
    HeaderStepPlaced(w, st0, Run(w, st0, rows, k), rows[k], k, i);
  }

  /** Every fragment's header row holds the titles of its first record's
      keys, sanitized, as strings, right above that record, to the end. */
  lemma {:induction false} RunHeaderPlaced(w: Writer, st0: WriteState, rows: seq<Row>, n: nat, k: nat, i: nat)
    requires Starts(st0) && k < n <= |rows| && i < |rows[k]| && DistinctKeys(rows[k])
    requires OpensFragment(w.rowsPerSheet, st0.cur.rowCurrent - 1, st0.cur.rowStart, k)
    ensures var s := RecordSlot(w, st0, k);
      && GetCell(Run(w, st0, rows, n).wb, FragmentSheet(st0, s.0), st0.cur.columnStart + i, s.1 - 1) ==
           Some(Cell(Some(SanitizeString(ResolveHeader(st0.cur.columnCollection, rows[k][i].0).1)), TypeString))
      && Behind(Run(w, st0, rows, n), FragmentSheet(st0, s.0), s.1 - 1)
    decreases n
  {
    var s := RecordSlot(w, st0, k);
    if n == k + 1 {
      HeaderWritten(w, st0, rows, k, i);
    } else {
      RunHeaderPlaced(w, st0, rows, n - 1, k, i);
      BehindStep(w, Run(w, st0, rows, n - 1), rows[n - 1], FragmentSheet(st0, s.0), st0.cur.columnStart + i, s.1 - 1);
    }
  }

  /** On a split, the new sheet gets the table's heading in the start column
      of the start row. */
  lemma HeadingStepPlaced(w: Writer, st0: WriteState, st: WriteState, row: Row, k: nat)
    requires ShapedBefore(w, st0, st, k)
    requires OpensFragment(w.rowsPerSheet, st0.cur.rowCurrent - 1, st0.cur.rowStart, k) && RecordSlot(w, st0, k).0 > 0
    ensures var s := RecordSlot(w, st0, k);
      && GetCell(Step(w, st, row).wb, FragmentSheet(st0, s.0), st0.cur.columnStart, st0.cur.rowStart) == Some(HeadingCell(st0.cur.heading))
      && Behind(Step(w, st, row), FragmentSheet(st0, s.0), st0.cur.rowStart)
  {
    OpensIffHeader(w, st0, st, k);
    StepAtSlot(w, st0, st, row, k);
    assert Splits(w, st);
    StepHeading(w, st, row);
  }

  /** Right after the iteration that opens fragment f > 0, its sheet holds
      the heading. */
  lemma HeadingWritten(w: Writer, st0: WriteState, rows: seq<Row>, k: nat)
    requires Starts(st0) && k < |rows|
    requires OpensFragment(w.rowsPerSheet, st0.cur.rowCurrent - 1, st0.cur.rowStart, k) && RecordSlot(w, st0, k).0 > 0
    ensures var s := RecordSlot(w, st0, k);
      && GetCell(Run(w, st0, rows, k + 1).wb, FragmentSheet(st0, s.0), st0.cur.columnStart, st0.cur.rowStart) == Some(HeadingCell(st0.cur.heading))
      && Behind(Run(w, st0, rows, k + 1), FragmentSheet(st0, s.0), st0.cur.rowStart)
  {
    RunShape(w, st0, rows, k);
    HeadingStepPlaced(w, st0, Run(w, st0, rows, k), rows[k], k);
  }

  /** Every fragment after the first starts with the table's heading, to the
      end of the loop. */
  lemma {:induction false} RunHeadingPlaced(w: Writer, st0: WriteState, rows: seq<Row>, n: nat, k: nat)
    requires Starts(st0) && k < n <= |rows|
    requires OpensFragment(w.rowsPerSheet, st0.cur.rowCurrent - 1, st0.cur.rowStart, k) && RecordSlot(w, st0, k).0 > 0
    ensures var s := RecordSlot(w, st0, k);
      && GetCell(Run(w, st0, rows, n).wb, FragmentSheet(st0, s.0), st0.cur.columnStart, st0.cur.rowStart) == Some(HeadingCell(st0.cur.heading))
      && Behind(Run(w, st0, rows, n), FragmentSheet(st0, s.0), st0.cur.rowStart)
    decreases n
  {
    var s := RecordSlot(w, st0, k);
    if n == k + 1 {
      HeadingWritten(w, st0, rows, k);
    } else {
      RunHeadingPlaced(w, st0, rows, n - 1, k);
      BehindStep(w, Run(w, st0, rows, n - 1), rows[n - 1], FragmentSheet(st0, s.0), st0.cur.columnStart, st0.cur.rowStart);
    }
  }

  /** Column widths of sheet k are settled: the sheet exists and no header
      row is due. */
  predicate WidthsSettled(st: WriteState, k: nat) {
    k < SheetCount(st.wb) && !st.headingRow
  }

  /** An iteration changes no settled width, and what is settled stays so. */
  lemma WidthsStep(w: Writer, st: WriteState, row: Row, k: nat, c: int)
    requires WidthsSettled(st, k)
    ensures WidthsSettled(Step(w, st, row), k)
    ensures GetColumnWidth(Step(w, st, row).wb, k, c) == GetColumnWidth(st.wb, k, c)
  {
    StepCursor(w, st, row);
    StepWidthsFrame(w, st, row);
  }

  /** An iteration that opens a fragment sets the widths of its record's
      columns, and they are settled. */
  lemma WidthsStepPlaced(w: Writer, st0: WriteState, st: WriteState, row: Row, k: nat, i: nat)
    requires ShapedBefore(w, st0, st, k) && i < |row|
    requires OpensFragment(w.rowsPerSheet, st0.cur.rowCurrent - 1, st0.cur.rowStart, k)
    ensures var s := RecordSlot(w, st0, k);
      && GetColumnWidth(Step(w, st, row).wb, FragmentSheet(st0, s.0), st0.cur.columnStart + i) ==
           Some(ResolveHeader(st0.cur.columnCollection, row[i].0).0)
      && WidthsSettled(Step(w, st, row), FragmentSheet(st0, s.0))
  {
    OpensIffHeader(w, st0, st, k);
    StepAtSlot(w, st0, st, row, k);
    StepCursor(w, st, row);
    StepHeaderWidths(w, st, row);
  }

  /** Right after the iteration that opens a fragment, its record's columns
      have their widths. */
  lemma WidthsWritten(w: Writer, st0: WriteState, rows: seq<Row>, k: nat, i: nat)
    requires Starts(st0) && k < |rows| && i < |rows[k]|
    requires OpensFragment(w.rowsPerSheet, st0.cur.rowCurrent - 1, st0.cur.rowStart, k)
    ensures var s := RecordSlot(w, st0, k);
      && GetColumnWidth(Run(w, st0, rows, k + 1).wb, FragmentSheet(st0, s.0), st0.cur.columnStart + i) ==
           Some(ResolveHeader(st0.cur.columnCollection, rows[k][i].0).0)
      && WidthsSettled(Run(w, st0, rows, k + 1), FragmentSheet(st0, s.0))
  {
    RunShape(w, st0, rows, k);
    WidthsStepPlaced(w, st0, Run(w, st0, rows, k), rows[k], k, i);
  }

  /** Every fragment's columns keep the widths its first record's keys
      resolve to, to the end of the loop. */
  lemma {:induction false} RunWidthsPlaced(w: Writer, st0: WriteState, rows: seq<Row>, n: nat, k: nat, i: nat)
    requires Starts(st0) && k < n <= |rows| && i < |rows[k]|
    requires OpensFragment(w.rowsPerSheet, st0.cur.rowCurrent - 1, st0.cur.rowStart, k)
    ensures var s := RecordSlot(w, st0, k);
      && GetColumnWidth(Run(w, st0, rows, n).wb, FragmentSheet(st0, s.0), st0.cur.columnStart + i) ==
           Some(ResolveHeader(st0.cur.columnCollection, rows[k][i].0).0)
      && WidthsSettled(Run(w, st0, rows, n), FragmentSheet(st0, s.0))
    decreases n
  {
    var s := RecordSlot(w, st0, k);
    if n == k + 1 {
      WidthsWritten(w, st0, rows, k, i);
    } else {
      RunWidthsPlaced(w, st0, rows, n - 1, k, i);
      WidthsStep(w, Run(w, st0, rows, n - 1), rows[n - 1], FragmentSheet(st0, s.0), st0.cur.columnStart + i);
    }
  }

  /** The loop never comes back to a settled width. */
  lemma {:induction false} RunKeepsSettled(w: Writer, st0: WriteState, rows: seq<Row>, m: nat, n: nat, k: nat, c: int)
    requires m <= n <= |rows| && WidthsSettled(Run(w, st0, rows, m), k)
    ensures WidthsSettled(Run(w, st0, rows, n), k)
    ensures GetColumnWidth(Run(w, st0, rows, n).wb, k, c) == GetColumnWidth(Run(w, st0, rows, m).wb, k, c)
    decreases n
  {
    if m < n {
      RunKeepsSettled(w, st0, rows, m, n - 1, k, c);
      WidthsStep(w, Run(w, st0, rows, n - 1), rows[n - 1], k, c);
    }
  }

  /** The first iteration sets widths on the first fragment's sheet or on a
      new one only: every other existing sheet keeps its widths, which are
      then settled. */
  lemma FirstStepWidths(w: Writer, st0: WriteState, rows: seq<Row>, k: nat, c: int)
    requires Starts(st0) && 0 < |rows| && k < SheetCount(st0.wb) && k != st0.cur.sheet
    ensures WidthsSettled(Run(w, st0, rows, 1), k)
    ensures GetColumnWidth(Run(w, st0, rows, 1).wb, k, c) == GetColumnWidth(st0.wb, k, c)
  {
    assert Run(w, st0, rows, 1) == Step(w, st0, rows[0]);
    StepCursor(w, st0, rows[0]);
    StepWidthsFrame(w, st0, rows[0]);
  }

  // ---------------------------------------------------------------------------
  // What the loop leaves alone
  // ---------------------------------------------------------------------------

  /** The workbook parts the loop keeps: the panes, the titles of the sheets
      that existed, and the default style, which only a split sets, to the
      default font size. */
  predicate PartsAfter(w: Writer, st0: WriteState, st: WriteState, k: nat) {
    && st.wb.freezes == st0.wb.freezes
    && SheetCount(st.wb) >= SheetCount(st0.wb)
    && (forall j :: 0 <= j < SheetCount(st0.wb) ==> st.wb.titles[j] == st0.wb.titles[j])
    && st.wb.defaultStyle ==
         if k > 0 && RecordSlot(w, st0, k - 1).0 > 0 then DefaultStyle(Some(DEFAULT_FONT_SIZE), true) else st0.wb.defaultStyle
  }

  lemma PartsStep(w: Writer, st0: WriteState, st: WriteState, row: Row, k: nat)
    requires ShapedBefore(w, st0, st, k) && PartsAfter(w, st0, st, k)
    ensures PartsAfter(w, st0, Step(w, st, row), k + 1)
  {
    OpensIffHeader(w, st0, st, k);
    StepParts(w, st, row);
    if k > 0 {
      SlotStep(w.rowsPerSheet, st0.cur.rowCurrent - 1, st0.cur.rowStart, k - 1);
    }
  }

  /** The loop freezes no pane, renames no existing sheet, and leaves the
      default style alone unless it splits. */
  lemma {:induction false} RunParts(w: Writer, st0: WriteState, rows: seq<Row>, k: nat)
    requires Starts(st0) && k <= |rows|
    ensures PartsAfter(w, st0, Run(w, st0, rows, k), k)
    decreases k
  {
    if k > 0 {
      RunParts(w, st0, rows, k - 1);
      RunShape(w, st0, rows, k - 1);
      PartsStep(w, st0, Run(w, st0, rows, k - 1), rows[k - 1], k - 1);
    }
  }

  /** After n records the fragments (those filed and the current one) are
      as many as the reference model opens, each on its own sheet, and
      every split appended exactly one sheet. */
  lemma RunFragments(w: Writer, st0: WriteState, rows: seq<Row>, n: nat)
    requires Starts(st0) && n <= |rows|
    ensures var st := Run(w, st0, rows, n);
      && |Fragments(st)| == FragmentCount(w.rowsPerSheet, st0.cur.rowCurrent - 1, st0.cur.rowStart, n)
      && SheetCount(st.wb) == SheetCount(st0.wb) + |st.done|
      && (forall j :: 0 <= j < |Fragments(st)| ==> Fragments(st)[j].sheet == FragmentSheet(st0, j) && Carries(st0.cur, Fragments(st)[j]))
      && DistinctSheets(Fragments(st))
  {
    var st := Run(w, st0, rows, n);
    RunShape(w, st0, rows, n);
    var ts := Fragments(st);
    assert forall j :: 0 <= j < |ts| ==> ts[j].sheet == FragmentSheet(st0, j) by {
      forall j | 0 <= j < |ts|
        ensures ts[j].sheet == FragmentSheet(st0, j)
      {
        if j < |st.done| {
          assert ts[j] == st.done[j];
        }
      }
    }
  }

  /** Every fragment after the first has its heading at the start row, and
      the loop has left it behind. */
  lemma RunLaterHeadings(w: Writer, st0: WriteState, rows: seq<Row>, n: nat, j: nat)
    requires Starts(st0) && n <= |rows|
    requires 0 < j < FragmentCount(w.rowsPerSheet, st0.cur.rowCurrent - 1, st0.cur.rowStart, n)
    ensures GetCell(Run(w, st0, rows, n).wb, FragmentSheet(st0, j), st0.cur.columnStart, st0.cur.rowStart) == Some(HeadingCell(st0.cur.heading))
    ensures Behind(Run(w, st0, rows, n), FragmentSheet(st0, j), st0.cur.rowStart)
  {
    FragmentOpened(w.rowsPerSheet, st0.cur.rowCurrent - 1, st0.cur.rowStart, n - 1, j);
    var l :| 0 <= l <= n - 1 && Slot(w.rowsPerSheet, st0.cur.rowCurrent - 1, st0.cur.rowStart, l).0 == j
      && OpensFragment(w.rowsPerSheet, st0.cur.rowCurrent - 1, st0.cur.rowStart, l);
    RunHeadingPlaced(w, st0, rows, n, l);
  }

  // ---------------------------------------------------------------------------
  // First data rows
  // ---------------------------------------------------------------------------

  /** The first data row fragment j has after k records: two below the start
      row for every later fragment; for the first, the row below its header
      row once a record has been written there, else what it had. */
  function ExpectedDataRow(w: Writer, st0: WriteState, k: nat, j: nat): Option<int> {
    if j > 0 then Some(st0.cur.rowStart + 2)
    else if k > 0 && RecordSlot(w, st0, 0).0 == 0 then Some(st0.cur.rowCurrent + 1)
    else st0.cur.dataRowStart
  }

  predicate DataRowsFiled(w: Writer, st0: WriteState, st: WriteState, k: nat) {
    forall j :: 0 <= j < |Fragments(st)| ==> Fragments(st)[j].dataRowStart == ExpectedDataRow(w, st0, k, j)
  }

  lemma DataRowStep(w: Writer, st0: WriteState, st: WriteState, row: Row, k: nat)
    requires ShapedBefore(w, st0, st, k) && DataRowsFiled(w, st0, st, k)
    ensures DataRowsFiled(w, st0, Step(w, st, row), k + 1)
  {
    var r := Step(w, st, row);
    StepCursor(w, st, row);
    StepDataRow(w, st, row);
    StepAtSlot(w, st0, st, row, k);
    var ts, rs := Fragments(st), Fragments(r);
    forall j | 0 <= j < |rs|
      ensures rs[j].dataRowStart == ExpectedDataRow(w, st0, k + 1, j)
    {
      if j < |st.done| {
        assert rs[j] == ts[j];
        assert ExpectedDataRow(w, st0, k + 1, j) == ExpectedDataRow(w, st0, k, j);
      } else if j == |st.done| && Splits(w, st) {
        assert rs[j] == st.cur;
        assert ExpectedDataRow(w, st0, k + 1, j) == ExpectedDataRow(w, st0, k, j);
      }
    }
  }

  /** Every fragment's first data row after k records is the expected one. */
  lemma {:induction false} RunDataRows(w: Writer, st0: WriteState, rows: seq<Row>, k: nat)
    requires Starts(st0) && k <= |rows|
    ensures DataRowsFiled(w, st0, Run(w, st0, rows, k), k)
    decreases k
  {
    if k > 0 {
      RunDataRows(w, st0, rows, k - 1);
      RunShape(w, st0, rows, k - 1);
      DataRowStep(w, st0, Run(w, st0, rows, k - 1), rows[k - 1], k - 1);
    }
  }

  // ---------------------------------------------------------------------------
  // Counts
  // ---------------------------------------------------------------------------

  /** Only `Finish` sets a count: the first fragment keeps the table's, and
      every fragment a split opened has none. */
  predicate CountsKept(st0: WriteState, st: WriteState) {
    forall j :: 0 <= j < |Fragments(st)| ==> Fragments(st)[j].count == if j == 0 then st0.cur.count else None
  }

  lemma CountStep(w: Writer, st0: WriteState, st: WriteState, row: Row)
    requires CountsKept(st0, st)
    ensures CountsKept(st0, Step(w, st, row))
  {
    var r := Step(w, st, row);
    StepCursor(w, st, row);
    StepCount(w, st, row);
    var ts, rs := Fragments(st), Fragments(r);
    forall j | 0 <= j < |rs|
      ensures rs[j].count == if j == 0 then st0.cur.count else None
    {
      if j < |st.done| {
        assert rs[j] == ts[j];
      } else if j == |st.done| && Splits(w, st) {
        assert rs[j] == st.cur;
      }
    }
  }

  /** After any number of records no fragment has been counted beyond what
      the table carried in. */
  lemma {:induction false} RunCounts(w: Writer, st0: WriteState, rows: seq<Row>, k: nat)
    requires |st0.done| == 0 && k <= |rows|
    ensures CountsKept(st0, Run(w, st0, rows, k))
    decreases k
  {
    if k > 0 {
      RunCounts(w, st0, rows, k - 1);
      CountStep(w, st0, Run(w, st0, rows, k - 1), rows[k - 1]);
    }
  }

  // ---------------------------------------------------------------------------
  // Row heights
  // ---------------------------------------------------------------------------

  /** After k records only the first fragment's rows below its heading have
      the configured height, if there is one, and every later fragment has
      none configured. */
  ghost predicate HeightsAfter(w: Writer, st0: WriteState, st: WriteState, k: nat) {
    && st.cur.rowHeight == (if |st.done| == 0 then st0.cur.rowHeight else None)
    && forall sheet: nat, rr :: GetRowHeight(st.wb, sheet, rr) ==
         if st0.cur.rowHeight.Some? && sheet == st0.cur.sheet
            && st0.cur.rowCurrent <= rr < FirstFragmentEnd(w.rowsPerSheet, st0.cur.rowCurrent - 1, k)
         then st0.cur.rowHeight else GetRowHeight(st0.wb, sheet, rr)
  }

  lemma HeightsStep(w: Writer, st0: WriteState, st: WriteState, row: Row, k: nat)
    requires ShapedBefore(w, st0, st, k) && HeightsAfter(w, st0, st, k)
    ensures HeightsAfter(w, st0, Step(w, st, row), k + 1)
  {
    StepCursor(w, st, row);
    StepRowHeights(w, st, row);
    StepAtSlot(w, st0, st, row, k);
    ShapeStep(w, st0, st, row, k);
    FirstFragmentEndStep(w.rowsPerSheet, st0.cur.rowCurrent - 1, st0.cur.rowStart, k);
  }

  /** Only the first fragment's header and record rows get a height. */
  lemma {:induction false} RunHeights(w: Writer, st0: WriteState, rows: seq<Row>, k: nat)
    requires Starts(st0) && k <= |rows|
    ensures HeightsAfter(w, st0, Run(w, st0, rows, k), k)
    decreases k
  {
    if k > 0 {
      RunHeights(w, st0, rows, k - 1);
      RunShape(w, st0, rows, k - 1);
      HeightsStep(w, st0, Run(w, st0, rows, k - 1), rows[k - 1], k - 1);
    }
  }
}
