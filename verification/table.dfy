/** The table cursor (lib/Table.php): one fragment of a table on one sheet,
    with its start/current/end rows and columns, the once-set first data row
    and row count, and its configuration. Every mutator of the PHP class is a
    pure function returning the updated record.

    Where the code and its tests disagree, the model follows the code:
    - `incrementRow`/`incrementColumn` take the maximum BEFORE advancing, so
      `rowEnd`/`columnEnd` hold the last index passed over, one less than
      tests/TableTest.php:48,55 and tests/TableWriterTest.php:40,45 expect;
    - the split copies the parent's `rowStart` (lib/Table.php:230), where
      tests/TableTest.php:100 expects 0;
    - the default font size is 10 (lib/Table.php:28), where
      tests/TableTest.php:114 expects 8;
    - `getDataRowStart` fails when nothing was flagged (lib/Table.php:71),
      where tests/TableTest.php:40 expects null. */
module Tables {
  import opened Wrappers
  import opened Columns
  import opened Workbooks

  /** One data record: ordered key/value pairs, values already stringified
      (`None` is PHP null). */
  type Row = seq<(string, Option<string>)>

  const DEFAULT_FONT_SIZE: int := 10

  /** The two "not set yet" programming errors of the class. */
  datatype TableError = DataRowStartNotFlagged | CountNotSet

  /** Where a table is being written: its start, end and current rows and
      columns, and the first data row once flagged. */
  datatype Cursor = Cursor(
    rowStart: int,
    rowEnd: int,
    rowCurrent: int,
    columnStart: int,
    columnEnd: int,
    columnCurrent: int,
    dataRowStart: Option<int>)

  /** What a table holds and how it is written. */
  datatype Settings = Settings(
    heading: string,
    data: seq<Row>,
    columnCollection: ColumnCollection,
    freezePanes: bool,
    fontSize: int,
    rowHeight: Option<int>,
    textWrap: bool,
    writtenColumn: map<int, string>,
    writtenColumnTitles: Option<seq<(string, string)>>,
    count: Option<int>)

  /** The PHP object's fields, grouped; each one reads as `t.<field>`. */
  datatype Table = Table(sheet: nat, cursor: Cursor, settings: Settings) {
    const rowStart: int := cursor.rowStart
    const rowEnd: int := cursor.rowEnd
    const rowCurrent: int := cursor.rowCurrent
    const columnStart: int := cursor.columnStart
    const columnEnd: int := cursor.columnEnd
    const columnCurrent: int := cursor.columnCurrent
    const dataRowStart: Option<int> := cursor.dataRowStart
    const heading: string := settings.heading
    const data: seq<Row> := settings.data
    const columnCollection: ColumnCollection := settings.columnCollection
    const freezePanes: bool := settings.freezePanes
    const fontSize: int := settings.fontSize
    const rowHeight: Option<int> := settings.rowHeight
    const textWrap: bool := settings.textWrap
    const writtenColumn: map<int, string> := settings.writtenColumn
    const writtenColumnTitles: Option<seq<(string, string)>> := settings.writtenColumnTitles
    const count: Option<int> := settings.count
  }

  /** The cursor invariant every reachable table satisfies: the end row
      never runs ahead of the current row nor falls below the start, the
      end and current columns never fall below the start column, and a
      flagged data row lies between the start and the current row. */
  predicate Valid(t: Table) {
    && t.rowStart <= t.rowEnd <= t.rowCurrent
    && t.columnStart <= t.columnEnd
    && t.columnStart <= t.columnCurrent
    && (t.dataRowStart.Some? ==> t.rowStart <= t.dataRowStart.value <= t.rowCurrent)
  }

  /** The row fields agree, the flagged data row included. */
  predicate SameRows(t: Table, u: Table) {
    u.dataRowStart == t.dataRowStart && u.rowStart == t.rowStart && u.rowEnd == t.rowEnd && u.rowCurrent == t.rowCurrent
  }

  /** The column fields agree. */
  predicate SameColumns(t: Table, u: Table) {
    u.columnStart == t.columnStart && u.columnEnd == t.columnEnd && u.columnCurrent == t.columnCurrent
  }

  /** The sheet and the whole cursor agree. */
  predicate SamePlace(t: Table, u: Table) {
    u.sheet == t.sheet && u.cursor == t.cursor
  }

  /** Every field outside the cursor agrees: the sheet, the content, the
      settings and what the writer recorded. */
  predicate SameConfig(t: Table, u: Table) {
    u.sheet == t.sheet && u.settings == t.settings
  }

  /** The constructor: all three row fields at `row`, all three column fields
      at `column`, nothing flagged or counted, an empty column collection,
      freeze panes on, font size 10, no row height, no text wrap. */
  function NewTable(sheet: nat, row: int, column: int, heading: string, data: seq<Row>): Table {
    Table(sheet, Cursor(row, row, row, column, column, column, None),
          Settings(heading, data, EmptyCollection(), true, DEFAULT_FONT_SIZE, None, false, map[], None, None))
  }

  /** A new table is valid, with start, end and current coinciding on both
      axes, nothing flagged or counted, no column known, and the default
      configuration. */
  lemma NewTableValid(sheet: nat, row: int, column: int, heading: string, data: seq<Row>)
    ensures var t := NewTable(sheet, row, column, heading, data);
      && Valid(t)
      && t.rowStart == t.rowEnd == t.rowCurrent == row
      && t.columnStart == t.columnEnd == t.columnCurrent == column
      && t.dataRowStart.None? && t.count.None? && t.sheet == sheet
      && t.heading == heading && t.data == data
      && (forall k :: !OffsetExists(t.columnCollection, k))
      && t.freezePanes && t.fontSize == DEFAULT_FONT_SIZE && t.rowHeight.None? && !t.textWrap
  {
  }

  /** `incrementRow`: the end row becomes the larger of itself and the row
      being left, then the current row advances by one. */
  function IncrementRow(t: Table): Table {
    t.(cursor := t.cursor.(rowEnd := Max(t.rowEnd, t.rowCurrent), rowCurrent := t.rowCurrent + 1))
  }

  /** `incrementColumn`: the same bookkeeping on the columns. */
  function IncrementColumn(t: Table): Table {
    t.(cursor := t.cursor.(columnEnd := Max(t.columnEnd, t.columnCurrent), columnCurrent := t.columnCurrent + 1))
  }

  /** `resetColumn`: back to the start column. */
  function ResetColumn(t: Table): Table {
    t.(cursor := t.cursor.(columnCurrent := t.columnStart))
  }

  /** `flagDataRowStart`: remember the current row as the first data row. */
  function FlagDataRowStart(t: Table): Table {
    t.(cursor := t.cursor.(dataRowStart := Some(t.rowCurrent)))
  }

  /** `getDataRowStart`: fails until `flagDataRowStart` was called. */
  function GetDataRowStart(t: Table): (r: Result<int, TableError>)
    ensures t.dataRowStart.None? <==> r == Failure(DataRowStartNotFlagged)
    ensures t.dataRowStart.Some? ==> r == Success(t.dataRowStart.value)
  {
    match t.dataRowStart
    case None => Failure(DataRowStartNotFlagged)
    case Some(d) => Success(d)
  }

  /** `setCount`. */
  function SetCount(t: Table, n: int): Table {
    t.(settings := t.settings.(count := Some(n)))
  }

  /** `count()`: throws until `setCount` was called, then the last value set. */
  function Count(t: Table): (r: Result<int, TableError>)
    ensures t.count.None? <==> r == Failure(CountNotSet)
    ensures t.count.Some? ==> r == Success(t.count.value)
  {
    match t.count
    case None => Failure(CountNotSet)
    case Some(n) => Success(n)
  }

  /** `isEmpty()`: the count is zero; fails like `count()` when it is unset. */
  function IsEmpty(t: Table): (r: Result<bool, TableError>)
    ensures t.count.None? <==> r.Failure?
    ensures r.Success? ==> (r.value <==> Count(t) == Success(0))
  {
    match Count(t)
    case Failure(e) => Failure(e)
    case Success(n) => Success(n == 0)
  }

  /** After `setCount(n)` the count reads back as `n`, the table is empty iff
      `n == 0`, and nothing else changes. */
  lemma CountAfterSetCount(t: Table, n: int)
    ensures Count(SetCount(t, n)) == Success(n)
    ensures IsEmpty(SetCount(t, n)) == Success(n == 0)
    ensures SamePlace(t, SetCount(t, n)) && SetCount(t, n).settings.(count := t.count) == t.settings
  {
  }

  // ---------------------------------------------------------------------------
  // Configuration setters (the getters are the record's fields)
  // ---------------------------------------------------------------------------

  function SetColumnCollection(t: Table, c: ColumnCollection): Table {
    t.(settings := t.settings.(columnCollection := c))
  }

  function SetFreezePanes(t: Table, b: bool): Table {
    t.(settings := t.settings.(freezePanes := b))
  }

  function SetFontSize(t: Table, size: int): Table {
    t.(settings := t.settings.(fontSize := size))
  }

  function SetRowHeight(t: Table, h: Option<int>): Table {
    t.(settings := t.settings.(rowHeight := h))
  }

  function SetTextWrap(t: Table, b: bool): Table {
    t.(settings := t.settings.(textWrap := b))
  }

  function SetWrittenColumn(t: Table, w: map<int, string>): Table {
    t.(settings := t.settings.(writtenColumn := w))
  }

  /** The ordered key-to-title map of the header row the writer records. */
  function SetWrittenColumnTitles(t: Table, titles: seq<(string, string)>): Table {
    t.(settings := t.settings.(writtenColumnTitles := Some(titles)))
  }

  /** Each setter reads back through its getter and changes nothing else. */
  lemma SettersReadBack(t: Table, c: ColumnCollection, b: bool, size: int, h: Option<int>,
                        w: map<int, string>, titles: seq<(string, string)>)
    ensures var r := SetColumnCollection(t, c); r.columnCollection == c && SamePlace(t, r) && r.settings.(columnCollection := t.columnCollection) == t.settings
    ensures var r := SetFreezePanes(t, b); r.freezePanes == b && SamePlace(t, r) && r.settings.(freezePanes := t.freezePanes) == t.settings
    ensures var r := SetFontSize(t, size); r.fontSize == size && SamePlace(t, r) && r.settings.(fontSize := t.fontSize) == t.settings
    ensures var r := SetRowHeight(t, h); r.rowHeight == h && SamePlace(t, r) && r.settings.(rowHeight := t.rowHeight) == t.settings
    ensures var r := SetTextWrap(t, b); r.textWrap == b && SamePlace(t, r) && r.settings.(textWrap := t.textWrap) == t.settings
    ensures var r := SetWrittenColumn(t, w); r.writtenColumn == w && SamePlace(t, r) && r.settings.(writtenColumn := t.writtenColumn) == t.settings
    ensures var r := SetWrittenColumnTitles(t, titles);
      r.writtenColumnTitles == Some(titles) && SamePlace(t, r) && r.settings.(writtenColumnTitles := t.writtenColumnTitles) == t.settings
  {
  }

  // ---------------------------------------------------------------------------
  // splitTableOnNewWorksheet
  // ---------------------------------------------------------------------------

  /** `splitTableOnNewWorksheet`: a new table on a sheet newly appended to
      the workbook, at the parent's start row and start column, with the
      parent's heading and data; the column collection and the freeze-panes
      flag are copied over. The parent itself is left as it was. */
  function SplitTableOnNewWorksheet(wb: Workbook, t: Table): (Workbook, Table) {
    var newTable := NewTable(SheetCount(wb), t.rowStart, t.columnStart, t.heading, t.data);
    var newTable := SetColumnCollection(newTable, t.columnCollection);
    var newTable := SetFreezePanes(newTable, t.freezePanes);
    (CreateSheet(wb), newTable)
  }

  /** The fragment a split opens: on the sheet appended to the workbook,
      every row field at the parent's `rowStart` and every column field at
      its `columnStart`; heading, data, column collection and freeze-panes
      flag carried over; font size, row height and text wrap back at their
      defaults; no data row flagged, no count, no titles recorded. */
  lemma SplitTableFresh(wb: Workbook, t: Table)
    ensures var (wb1, n) := SplitTableOnNewWorksheet(wb, t);
      && wb1 == CreateSheet(wb) && n.sheet == SheetCount(wb)
      && n.rowStart == n.rowEnd == n.rowCurrent == t.rowStart
      && n.columnStart == n.columnEnd == n.columnCurrent == t.columnStart
      && n.heading == t.heading && n.data == t.data
      && n.columnCollection == t.columnCollection && n.freezePanes == t.freezePanes
      && n.fontSize == DEFAULT_FONT_SIZE && n.rowHeight.None? && !n.textWrap
      && n.dataRowStart.None? && n.count.None? && n.writtenColumnTitles.None?
      && Valid(n)
  {
  }

  // ---------------------------------------------------------------------------
  // Sequences of cursor operations
  // ---------------------------------------------------------------------------

  datatype CursorOp = IncrementRowOp | IncrementColumnOp | ResetColumnOp | FlagDataRowStartOp

  /** What each cursor operation moves; everything outside the cursor, and
      both start fields, stay as they were, and the invariant is kept. */
  function ApplyOp(t: Table, op: CursorOp): (r: Table)
    ensures SameConfig(t, r) && r.rowStart == t.rowStart && r.columnStart == t.columnStart
    ensures Valid(t) ==> Valid(r)
    ensures op == IncrementRowOp ==>
              && r.rowCurrent == t.rowCurrent + 1 && r.rowEnd == Max(t.rowEnd, t.rowCurrent)
              && r.dataRowStart == t.dataRowStart && SameColumns(t, r)
    ensures op == IncrementColumnOp ==>
              r.columnCurrent == t.columnCurrent + 1 && r.columnEnd == Max(t.columnEnd, t.columnCurrent) && SameRows(t, r)
    ensures op == ResetColumnOp ==>
              r.columnCurrent == t.columnStart && r.columnEnd == t.columnEnd && SameRows(t, r)
    ensures op == FlagDataRowStartOp ==>
              && r.dataRowStart == Some(t.rowCurrent)
              && r.rowEnd == t.rowEnd && r.rowCurrent == t.rowCurrent && SameColumns(t, r)
  {
    match op
    case IncrementRowOp => IncrementRow(t)
    case IncrementColumnOp => IncrementColumn(t)
    case ResetColumnOp => ResetColumn(t)
    case FlagDataRowStartOp => FlagDataRowStart(t)
  }

  function ApplyOps(t: Table, ops: seq<CursorOp>): Table
    decreases |ops|
  {
    if |ops| == 0 then t else ApplyOps(ApplyOp(t, ops[0]), ops[1..])
  }

  /** Over any sequence of cursor operations: the invariant is kept, the
      start row and column never move, the end row and column never shrink,
      the current row advances by exactly the number of row increments, and
      once a row increment happened the end row is the last row passed over. */
  lemma {:induction false} CursorOpsKeepInvariant(t: Table, ops: seq<CursorOp>)
    requires Valid(t)
    ensures var r := ApplyOps(t, ops);
      && Valid(r)
      && r.rowStart == t.rowStart && r.columnStart == t.columnStart
      && r.rowEnd >= t.rowEnd && r.columnEnd >= t.columnEnd
      && r.rowCurrent == t.rowCurrent + multiset(ops)[IncrementRowOp]
      && (IncrementRowOp in ops ==> r.rowEnd == r.rowCurrent - 1)
      && r.heading == t.heading && r.data == t.data && r.count == t.count
    decreases |ops|
  {
    if |ops| > 0 {
      var t1 := ApplyOp(t, ops[0]);
      CursorOpsKeepInvariant(t1, ops[1..]);
      assert ops == [ops[0]] + ops[1..];
      assert multiset(ops) == multiset{ops[0]} + multiset(ops[1..]);
      var r := ApplyOps(t1, ops[1..]);
      if IncrementRowOp in ops && IncrementRowOp !in ops[1..] {
        assert ops[0] == IncrementRowOp;
        assert multiset(ops[1..])[IncrementRowOp] == 0;
        assert r.rowCurrent == t1.rowCurrent;
        assert t1.rowEnd == t1.rowCurrent - 1;
        CursorOpsWithoutRowIncrement(t1, ops[1..]);
      }
    }
  }

  /** Without a row increment the row fields stay put. */
  lemma {:induction false} CursorOpsWithoutRowIncrement(t: Table, ops: seq<CursorOp>)
    requires IncrementRowOp !in ops
    ensures ApplyOps(t, ops).rowEnd == t.rowEnd
    ensures ApplyOps(t, ops).rowCurrent == t.rowCurrent
    decreases |ops|
  {
    if |ops| > 0 {
      assert ops[0] != IncrementRowOp;
      assert forall i :: 0 <= i < |ops[1..]| ==> ops[1..][i] == ops[i + 1];
      CursorOpsWithoutRowIncrement(ApplyOp(t, ops[0]), ops[1..]);
    }
  }

  /** The cursor sequence of tests/TableTest.php:34-62 as the code runs it:
      the end row and end column come out one below what that test expects. */
  lemma TableTestCursorSequence(sheet: nat, data: seq<Row>)
    ensures var t := ApplyOps(NewTable(sheet, 3, 12, "My Heading", data),
                              [IncrementRowOp, FlagDataRowStartOp, IncrementRowOp,
                               IncrementColumnOp, IncrementColumnOp]);
      && t.rowStart == 3 && t.dataRowStart == Some(4) && t.rowEnd == 4 && t.rowCurrent == 5
      && t.columnStart == 12 && t.columnEnd == 13 && t.columnCurrent == 14
      && ResetColumn(t).columnCurrent == 12 && ResetColumn(t).columnEnd == 13
  {
  }

  /** The split of tests/TableTest.php:92-110 as the code runs it: the new
      fragment starts at the parent's start row 3, not at 0. */
  lemma SplitKeepsParentRowStart(wb: Workbook, data: seq<Row>)
    ensures var t := SetFreezePanes(NewTable(0, 3, 12, "My Heading", data), false);
      var (wb2, n) := SplitTableOnNewWorksheet(wb, t);
      && n.rowStart == 3 && n.rowEnd == 3 && n.rowCurrent == 3
      && n.columnStart == 12 && n.columnEnd == 12 && n.columnCurrent == 12
      && !n.freezePanes && n.sheet == SheetCount(wb) && SheetCount(wb2) == SheetCount(wb) + 1
  {
  }
}
