/** The table writer (lib/TableWriter.php): writes a heading, a header row
    per fragment and one sheet row per data record, splitting the table onto
    a new sheet whenever the current row exceeds the row budget, then
    renames the sheets of a split table, freezes panes and handles the empty
    table. PHP's mutable `Table` and sheet objects become values threaded
    through pure functions; the `foreach` over the data is the left fold `Run`.

    The source is partly mid-refactor; the model resolves it as follows:
    - `ColumnCollection::count()` (lib/TableWriter.php:138, 170) does not
      exist; a key that is present implies a non-empty collection, so the
      guard `count != 0 && lookup != null` is modelled as "key present";
    - `setWrittenColumnTitles` (lib/TableWriter.php:151) is modelled by the
      table's ordered key-to-title map `writtenColumnTitles`;
    - the post-write styling loop (lib/TableWriter.php:71-84) iterates a
      collection that is not traversable, so it does nothing and is not
      modelled. */
module TableWriter {
  import opened Wrappers
  import opened PhpStrings
  import opened CellStyles
  import opened Columns
  import opened Workbooks
  import opened Tables

  /** `SANITIZE_MAP`, in its declaration order. */
  const SANITIZE_MAP: seq<(string, string)> :=
    [("&amp;", "&"), ("&lt;", "<"), ("&gt;", ">"), ("&apos;", "'"), ("&quot;", "\"")]

  const DEFAULT_ROWS_PER_SHEET: int := 262144
  const DEFAULT_COLUMN_WIDTH: int := 10
  /** Length the first sheet's title is cut to when fragments are renamed. */
  const TITLE_PREFIX_LENGTH: nat := 21
  /** The frozen pane's column: always the first, whatever the start column. */
  const FREEZE_COLUMN: int := 1

  /** The writer's constructor arguments. */
  datatype Writer = Writer(rowsPerSheet: int, emptyTableMessage: string)

  function DefaultWriter(): (w: Writer)
    ensures w.rowsPerSheet == DEFAULT_ROWS_PER_SHEET && w.emptyTableMessage == ""
  {
    Writer(DEFAULT_ROWS_PER_SHEET, "")
  }

  // ---------------------------------------------------------------------------
  // sanitize
  // ---------------------------------------------------------------------------

  /** `sanitize` on a non-null value: the five entity patterns are replaced
      in map order, each over the output of the previous one, as PHP's
      `str_replace` with arrays does (`SanitizeIsStrReplace`). */
  function SanitizeString(s: string): string {
    SanitizePasses(0, s)
  }

  /** The replacement passes from the j-th on, applied to `s`. */
  function SanitizePasses(j: nat, s: string): string
    decreases |SANITIZE_MAP| - j, |s| + 1
  {
    if j >= |SANITIZE_MAP| then s else ReplaceScan(j, [], s)
  }

  /** Pass j scans `rest` left to right, having produced `done` so far:
      each occurrence of the j-th pattern becomes its replacement and
      occurrences do not overlap; at the end of the subject the next pass
      starts on the output. */
  function ReplaceScan(j: nat, done: string, rest: string): string
    requires j < |SANITIZE_MAP|
    decreases |SANITIZE_MAP| - j, |rest|
  {
    var (search, replace) := SANITIZE_MAP[j];
    if |search| == 0 || |rest| < |search| then SanitizePasses(j + 1, done + rest)
    else if rest[..|search|] == search then ReplaceScan(j, done + replace, rest[|search|..])
    else ReplaceScan(j, done + [rest[0]], rest[1..])
  }

  /** One scan of pass j is `str_replace` with the j-th pattern. */
  lemma {:induction false} ReplaceScanIsStrReplace(j: nat, done: string, rest: string)
    requires j < |SANITIZE_MAP|
    ensures ReplaceScan(j, done, rest) ==
              SanitizePasses(j + 1, done + StrReplace(SANITIZE_MAP[j].0, SANITIZE_MAP[j].1, rest))
    decreases |rest|
  {
    var (search, replace) := SANITIZE_MAP[j];
    if |search| == 0 || |rest| < |search| {
    } else if rest[..|search|] == search {
      ReplaceScanIsStrReplace(j, done + replace, rest[|search|..]);
      assert done + replace + StrReplace(search, replace, rest[|search|..]) ==
             done + (replace + StrReplace(search, replace, rest[|search|..]));
    } else {
      ReplaceScanIsStrReplace(j, done + [rest[0]], rest[1..]);
      assert done + [rest[0]] + StrReplace(search, replace, rest[1..]) ==
             done + ([rest[0]] + StrReplace(search, replace, rest[1..]));
    }
  }

  /** The passes from the j-th on are `str_replace` with the rest of the map. */
  lemma {:induction false} SanitizePassesAreStrReplaceAll(j: nat, s: string)
    requires j <= |SANITIZE_MAP|
    ensures SanitizePasses(j, s) == StrReplaceAll(SANITIZE_MAP[j..], s)
    decreases |SANITIZE_MAP| - j
  {
    if j < |SANITIZE_MAP| {
      var pairs := SANITIZE_MAP[j..];
      ReplaceScanIsStrReplace(j, [], s);
      assert [] + StrReplace(SANITIZE_MAP[j].0, SANITIZE_MAP[j].1, s) == StrReplace(SANITIZE_MAP[j].0, SANITIZE_MAP[j].1, s);
      SanitizePassesAreStrReplaceAll(j + 1, StrReplace(SANITIZE_MAP[j].0, SANITIZE_MAP[j].1, s));
      assert pairs[0] == SANITIZE_MAP[j] && pairs[1..] == SANITIZE_MAP[j + 1..];
    }
  }

  /** `sanitize` is `str_replace(array_keys(SANITIZE_MAP), SANITIZE_MAP, $s)`,
      and never lengthens the string (every replacement is shorter than its
      pattern). */
  lemma SanitizeIsStrReplace(s: string)
    ensures SanitizeString(s) == StrReplaceAll(SANITIZE_MAP, s)
    ensures |SanitizeString(s)| <= |s|
  {
    SanitizePassesAreStrReplaceAll(0, s);
    assert SANITIZE_MAP[0..] == SANITIZE_MAP;
    StrReplaceAllNotLonger(SANITIZE_MAP, s);
  }

  /** Every entity pattern starts with `&`, so a string without one comes
      back unchanged. */
  lemma SanitizeWithoutAmpersand(s: string)
    requires '&' !in s
    ensures SanitizeString(s) == s
  {
    SanitizeIsStrReplace(s);
    forall j | 0 <= j < |SANITIZE_MAP|
      ensures !Occurs(SANITIZE_MAP[j].0, s)
    {
      FirstCharAbsentMeansNoOccurrence(SANITIZE_MAP[j].0, s);
    }
    StrReplaceAllWithoutOccurrence(SANITIZE_MAP, s);
  }

  /** The passes run over each other's output, so an escaped entity is
      decoded twice: `&amp;lt;` becomes `&lt;` and then `<`. */
  lemma SanitizeDecodesInMapOrder()
    ensures SanitizeString("&amp;lt;") == "<"
  {
    SanitizeIsStrReplace("&amp;lt;");
    assert StrReplace("&amp;", "&", "&amp;lt;") == "&lt;" by {
      assert "&amp;lt;"[..5] == "&amp;";
      assert "&amp;lt;"[5..] == "lt;";
      assert StrReplace("&amp;", "&", "lt;") == "lt;";
    }
    assert StrReplace("&lt;", "<", "&lt;") == "<" by {
      assert "&lt;"[..4] == "&lt;";
      assert "&lt;"[4..] == "";
    }
    StrReplaceAllWithoutOccurrence(SANITIZE_MAP[2..], "<");
    assert SANITIZE_MAP[2..][1..] == SANITIZE_MAP[3..];
  }

  /** `sanitize`: null passes through untouched (`SanitizeReturns`). */
  function Sanitize(v: Option<string>): (r: Option<string>)
    ensures v.None? <==> r.None?
  {
    match v
    case None => None
    case Some(s) => Some(SanitizeString(s))
  }

  /** What `sanitize` returns: null for null, and for a string the five
      entity patterns replaced, in map order, by their characters, never
      lengthening it. */
  lemma SanitizeReturns(v: Option<string>)
    ensures Sanitize(v).None? <==> v.None?
    ensures v.Some? ==> Sanitize(v) == Some(StrReplaceAll(SANITIZE_MAP, v.value)) && |Sanitize(v).value| <= |v.value|
  {
    if v.Some? {
      SanitizeIsStrReplace(v.value);
    }
  }

  // ---------------------------------------------------------------------------
  // Header titles and cell data types
  // ---------------------------------------------------------------------------

  /** The title derived from a key: underscores become spaces, then
      `ucwords` (`HeaderTitleIsUcWords`). */
  function HeaderTitle(key: string): string {
    TitleScan(key, true)
  }

  /** Both steps in one left-to-right scan: each character, with `_` read as
      a space, is upper-cased when `capitalize` holds, and the next one is
      capitalized after a word delimiter. */
  function TitleScan(s: string, capitalize: bool): string
    decreases |s|
  {
    if |s| == 0 then []
    else
      var c := if s[0] == '_' then ' ' else s[0];
      [if capitalize then ToUpper(c) else c] + TitleScan(s[1..], IsWordDelimiter(c))
  }

  lemma {:induction false} TitleScanIsUcWords(s: string, capitalize: bool)
    ensures TitleScan(s, capitalize) == UcWordsFrom(StrReplace("_", " ", s), capitalize)
    decreases |s|
  {
    if |s| > 0 {
      var c := if s[0] == '_' then ' ' else s[0];
      var tail := StrReplace("_", " ", s[1..]);
      assert StrReplace("_", " ", s) == [c] + tail by {
        if s[..1] == "_" {
          assert s[0] == '_';
        } else {
          assert s[0] != '_';
        }
      }
      assert ([c] + tail)[0] == c && ([c] + tail)[1..] == tail;
      TitleScanIsUcWords(s[1..], IsWordDelimiter(c));
    }
  }

  /** The derived title is `ucwords(str_replace('_', ' ', $key))`, one
      character per character of the key. */
  lemma HeaderTitleIsUcWords(key: string)
    ensures HeaderTitle(key) == UcWords(StrReplace("_", " ", key))
    ensures |HeaderTitle(key)| == |key|
  {
    TitleScanIsUcWords(key, true);
    StrReplaceSingleChar('_', ' ', key);
  }

  /** Width and title of a header cell: the collection's column when the key
      is present, else the default width 10 and the derived title. */
  function ResolveHeader(coll: ColumnCollection, key: string): (r: (int, string))
    ensures OffsetExists(coll, key) ==>
              r == (coll.columns[key].width, coll.columns[key].heading)
    ensures !OffsetExists(coll, key) ==> r == (DEFAULT_COLUMN_WIDTH, HeaderTitle(key))
  {
    match OffsetGet(coll, key)
    case Some(column) => (column.width, column.heading)
    case None => (DEFAULT_COLUMN_WIDTH, HeaderTitle(key))
  }

  /** The data type a cell is written with: null for a null value; otherwise
      the column style's type when the key is in the collection and this is
      not the header row; string in every other case. */
  function CellDataType(coll: ColumnCollection, key: string, value: Option<string>, isTitle: bool): (d: DataType)
    ensures d == TypeNull <==> value.None?
    ensures value.Some? && !isTitle && OffsetExists(coll, key) ==>
              d == GetDataType(coll.columns[key].cellStyle)
    ensures value.Some? && (isTitle || !OffsetExists(coll, key)) ==> d == TypeString
  {
    if value.None? then TypeNull
    else if !isTitle && OffsetExists(coll, key) then GetDataType(coll.columns[key].cellStyle)
    else TypeString
  }

  /** What one key/value pair of a row turns into on the sheet: the sanitized
      value with the type chosen for it. */
  function WrittenCell(coll: ColumnCollection, pair: (string, Option<string>), isTitle: bool): (c: Cell)
    ensures c.value == Sanitize(pair.1)
    ensures c.dataType == CellDataType(coll, pair.0, pair.1, isTitle)
  {
    var v := Sanitize(pair.1);
    Cell(v, CellDataType(coll, pair.0, v, isTitle))
  }

  /** `$array[$k] = $v` on an ordered string-keyed array: an existing key
      keeps its position and takes the new value, a new key is appended. */
  function PutKey(m: seq<(string, string)>, k: string, v: string): (r: seq<(string, string)>)
    ensures (forall i :: 0 <= i < |m| ==> m[i].0 != k) ==> r == m + [(k, v)]
    ensures (exists i :: 0 <= i < |m| && m[i].0 == k) ==> |r| == |m|
    ensures |r| <= |m| + 1
    ensures forall i :: 0 <= i < |m| && m[i].0 != k ==> r[i] == m[i]
    ensures (k, v) in r
    decreases |m|
  {
    if |m| == 0 then [(k, v)]
    else if m[0].0 == k then [(k, v)] + m[1..]
    else [m[0]] + PutKey(m[1..], k, v)
  }

  /** No key occurs twice in the row, as for any PHP array. */
  predicate DistinctKeys(row: Row) {
    forall i, j :: 0 <= i < j < |row| ==> row[i].0 != row[j].0
  }

  /** The `$titles` array built by `writeColumnsHeading`: each key of the
      row, in order, mapped to its resolved title (`HeaderTitlesResolved`). */
  function HeaderTitles(coll: ColumnCollection, row: Row): (r: seq<(string, string)>)
    ensures |r| <= |row|
    decreases |row|
  {
    if |row| == 0 then []
    else
      var key := row[|row| - 1].0;
      PutKey(HeaderTitles(coll, row[..|row| - 1]), key, ResolveHeader(coll, key).1)
  }

  /** On a row with distinct keys, which every PHP array has, the titles
      follow the row's keys one for one. */
  lemma {:induction false} HeaderTitlesResolved(coll: ColumnCollection, row: Row)
    requires DistinctKeys(row)
    ensures var r := HeaderTitles(coll, row);
      |r| == |row| && forall i :: 0 <= i < |row| ==> r[i] == (row[i].0, ResolveHeader(coll, row[i].0).1)
    decreases |row|
  {
    if |row| > 0 {
      var prefix := row[..|row| - 1];
      var init := HeaderTitles(coll, prefix);
      var key := row[|row| - 1].0;
      assert DistinctKeys(prefix);
      HeaderTitlesResolved(coll, prefix);
      forall i | 0 <= i < |row| - 1 ensures init[i].0 != key {
        assert init[i].0 == prefix[i].0 == row[i].0;
      }
    }
  }

  /** The header row as `writeRow` receives it: keys with their titles. */
  function TitleRow(titles: seq<(string, string)>): (r: Row)
    ensures |r| == |titles|
    decreases |titles|
  {
    if |titles| == 0 then [] else [(titles[0].0, Some(titles[0].1))] + TitleRow(titles[1..])
  }

  lemma {:induction false} TitleRowAt(titles: seq<(string, string)>)
    ensures forall i :: 0 <= i < |titles| ==> TitleRow(titles)[i] == (titles[i].0, Some(titles[i].1))
    decreases |titles|
  {
    if |titles| > 0 {
      TitleRowAt(titles[1..]);
    }
  }

  /** The cells a row turns into, in order. */
  function RowCells(coll: ColumnCollection, row: Row, isTitle: bool): (r: seq<Cell>)
    ensures |r| == |row|
    decreases |row|
  {
    if |row| == 0 then [] else [WrittenCell(coll, row[0], isTitle)] + RowCells(coll, row[1..], isTitle)
  }

  lemma {:induction false} RowCellsAt(coll: ColumnCollection, row: Row, isTitle: bool)
    ensures forall i :: 0 <= i < |row| ==> RowCells(coll, row, isTitle)[i] == WrittenCell(coll, row[i], isTitle)
    decreases |row|
  {
    if |row| > 0 {
      RowCellsAt(coll, row[1..], isTitle);
    }
  }

  /** The widths a header row sets, in order. */
  function HeaderWidths(coll: ColumnCollection, row: Row): (r: seq<int>)
    ensures |r| == |row|
    decreases |row|
  {
    if |row| == 0 then [] else [ResolveHeader(coll, row[0].0).0] + HeaderWidths(coll, row[1..])
  }

  lemma {:induction false} HeaderWidthsAt(coll: ColumnCollection, row: Row)
    ensures forall i :: 0 <= i < |row| ==> HeaderWidths(coll, row)[i] == ResolveHeader(coll, row[i].0).0
    decreases |row|
  {
    if |row| > 0 {
      HeaderWidthsAt(coll, row[1..]);
    }
  }

  /** The header row's cells are the titles, sanitized, as strings. */
  lemma TitleCellsAt(coll: ColumnCollection, titles: seq<(string, string)>, i: int)
    requires 0 <= i < |titles|
    ensures RowCells(coll, TitleRow(titles), true)[i] == Cell(Some(SanitizeString(titles[i].1)), TypeString)
  {
    TitleRowAt(titles);
    RowCellsAt(coll, TitleRow(titles), true);
  }

  // ---------------------------------------------------------------------------
  // Writing one row
  // ---------------------------------------------------------------------------

  /** The end column after `n` column increments made from column `from` on. */
  function ColumnReach(columnEnd: int, from: int, n: nat): int {
    if n == 0 then columnEnd else Max(columnEnd, from + n - 1)
  }

  /** `n` calls of `incrementColumn`, one per written cell, in closed form:
      the current column moves `n` to the right and the end column reaches
      the last column passed (`IncrementColumnsRepeats`). */
  function IncrementColumns(t: Table, n: nat): Table {
    t.(cursor := t.cursor.(columnEnd := ColumnReach(t.columnEnd, t.columnCurrent, n), columnCurrent := t.columnCurrent + n))
  }

  /** The closed form is `incrementColumn` applied `n` times. */
  lemma {:induction false} IncrementColumnsRepeats(t: Table, n: nat)
    ensures ApplyOps(t, seq(n, _ => IncrementColumnOp)) == IncrementColumns(t, n)
    decreases n
  {
    if n > 0 {
      var ops := seq(n, _ => IncrementColumnOp);
      assert ops[1..] == seq(n - 1, _ => IncrementColumnOp);
      IncrementColumnsRepeats(IncrementColumn(t), n - 1);
    }
  }

  /** `writeRow` on cells already computed: back to the start column, write
      the cells from left to right along the current row (one column
      increment per cell), set the row's height when one is configured,
      advance one row. */
  function WriteCells(wb: Workbook, t: Table, cells: seq<Cell>): (r: (Workbook, Table))
  {
    var t1 := ResetColumn(t);
    var wb1 := SetRowCells(wb, t1.sheet, t1.columnCurrent, t1.rowCurrent, cells);
    var t2 := IncrementColumns(t1, |cells|);
    var wb2 := if t2.rowHeight.Some? then Workbooks.SetRowHeight(wb1, t2.sheet, t2.rowCurrent, t2.rowHeight.value) else wb1;
    (wb2, IncrementRow(t2))
  }

  /** `writeRow`: each key/value pair becomes its written cell. */
  function WriteRow(wb: Workbook, t: Table, row: Row, isTitle: bool): (r: (Workbook, Table))
  {
    WriteCells(wb, t, RowCells(t.columnCollection, row, isTitle))
  }

  /** The heading cell: the sanitized heading, as a string. */
  function HeadingCell(heading: string): (c: Cell)
    ensures c.dataType == TypeString && c.value == Sanitize(Some(heading))
  {
    Cell(Some(SanitizeString(heading)), TypeString)
  }

  /** `writeTableHeading`: set the spreadsheet's default font size to the
      table's and turn text wrapping on, then write the sanitized heading as a
      string in the start column of the current row and advance one row. */
  function WriteTableHeading(wb: Workbook, t: Table): (r: (Workbook, Table))
  {
    var wb1 := SetDefaultStyle(wb, t.fontSize);
    var t1 := ResetColumn(t);
    var wb2 := SetCell(wb1, t1.sheet, t1.columnCurrent, t1.rowCurrent, HeadingCell(t.heading));
    (wb2, IncrementRow(t1))
  }

  /** The header row given its widths and titles: set the widths on
      consecutive columns from the start column (one column increment per
      width), write the titles as a header row, record them, and flag the
      next row as the first data row. */
  function WriteHeader(wb: Workbook, t: Table, widths: seq<int>, titles: seq<(string, string)>): (r: (Workbook, Table))
  {
    var t1 := ResetColumn(t);
    var wb1 := SetColumnWidths(wb, t1.sheet, t1.columnCurrent, widths);
    var t2 := IncrementColumns(t1, |widths|);
    var written := WriteRow(wb1, t2, TitleRow(titles), true);
    (written.0, FlagDataRowStart(SetWrittenColumnTitles(written.1, titles)))
  }

  /** `writeColumnsHeading`: resolve each key's width and title, then write
      the header row. (The PHP loop sets a width and collects a title per
      key in one pass; the two halves are independent and are done one
      after the other.) */
  function WriteColumnsHeading(wb: Workbook, t: Table, row: Row): (r: (Workbook, Table))
  {
    WriteHeader(wb, t, HeaderWidths(t.columnCollection, row), HeaderTitles(t.columnCollection, row))
  }

  /** Writing a row touches nothing but cells and row heights. */
  lemma WriteCellsParts(wb: Workbook, t: Table, cells: seq<Cell>)
    ensures SameExcept(wb, WriteCells(wb, t, cells).0, {Cells, Heights})
  {
    var t1 := ResetColumn(t);
    SetRowCellsFrame(wb, t1.sheet, t1.columnCurrent, t1.rowCurrent, cells);
  }

  /** The heading touches nothing but cells and the default style. */
  lemma WriteTableHeadingParts(wb: Workbook, t: Table)
    ensures SameExcept(wb, WriteTableHeading(wb, t).0, {Cells, Style})
  {
  }

  /** The header row touches nothing but cells, widths and row heights. */
  lemma WriteHeaderParts(wb: Workbook, t: Table, widths: seq<int>, titles: seq<(string, string)>)
    ensures SameExcept(wb, WriteHeader(wb, t, widths, titles).0, {Cells, Widths, Heights})
  {
    var wb1 := SetColumnWidths(wb, t.sheet, t.columnStart, widths);
    SetColumnWidthsFrame(wb, t.sheet, t.columnStart, widths);
    WriteCellsParts(wb1, IncrementColumns(ResetColumn(t), |widths|), RowCells(t.columnCollection, TitleRow(titles), true));
  }

  // ---------------------------------------------------------------------------
  // The loop over the data
  // ---------------------------------------------------------------------------

  /** The loop's variables: the workbook, the `$tables` list split into the
      fragments already left behind and the fragment `cur` being written
      (the list's last element), the `$headingRow` flag and the `$count` of
      records seen. */
  datatype WriteState = WriteState(wb: Workbook, done: seq<Table>, cur: Table, headingRow: bool, count: nat)

  /** The `$tables` list. */
  function Fragments(st: WriteState): (ts: seq<Table>)
    ensures |ts| == |st.done| + 1 && ts[|st.done|] == st.cur
  {
    st.done + [st.cur]
  }

  /** Every fragment's sheet exists. */
  predicate SheetsExist(st: WriteState) {
    && st.cur.sheet < SheetCount(st.wb)
    && forall j :: 0 <= j < |st.done| ==> st.done[j].sheet < SheetCount(st.wb)
  }

  /** The budget check at the top of the loop body: when the current row is
      past `rowsPerSheet`, continue on a new sheet, write the heading there
      and ask for a header row. */
  function PaginationStep(w: Writer, st: WriteState): WriteState
  {
    if st.cur.rowCurrent > w.rowsPerSheet then
      var split := SplitTableOnNewWorksheet(st.wb, st.cur);
      var headed := WriteTableHeading(split.0, split.1);
      st.(wb := headed.0, done := st.done + [st.cur], cur := headed.1, headingRow := true)
    else
      st
  }

  /** The rest of the loop body: the header row when one is due, then the
      record itself. */
  function WriteStep(st: WriteState, row: Row): WriteState
  {
    if st.headingRow then RecordStep(st, WriteColumnsHeading(st.wb, st.cur, row), row)
    else RecordStep(st, (st.wb, st.cur), row)
  }

  /** The record row, written on `h` (the workbook and the cursor), which
      clears the `$headingRow` flag. */
  function RecordStep(st: WriteState, h: (Workbook, Table), row: Row): WriteState
  {
    var r := WriteRow(h.0, h.1, row, false);
    st.(wb := r.0, cur := r.1, headingRow := false)
  }

  /** One iteration of the `foreach`: count the record, check the budget, write. */
  function Step(w: Writer, st: WriteState, row: Row): WriteState
  {
    WriteStep(PaginationStep(w, st.(count := st.count + 1)), row)
  }

  /** The state after the first `k` records. */
  function Run(w: Writer, st: WriteState, rows: seq<Row>, k: nat): WriteState
    requires k <= |rows|
    decreases k, 1
  {
    if k == 0 then st else Iteration(w, st, rows, k)
  }

  /** The k-th iteration (from 1), on the state the earlier ones left. */
  function Iteration(w: Writer, st: WriteState, rows: seq<Row>, k: nat): WriteState
    requires 0 < k <= |rows|
    decreases k, 0
  {
    Step(w, Run(w, st, rows, k - 1), rows[k - 1])
  }

  /** The budget check keeps every existing sheet and every fragment's
      sheet, including the one a split creates. */
  lemma PaginationKeepsSheets(w: Writer, st: WriteState)
    requires SheetsExist(st)
    ensures SheetsExist(PaginationStep(w, st))
    ensures SheetCount(PaginationStep(w, st).wb) >= SheetCount(st.wb)
  {
    if st.cur.rowCurrent > w.rowsPerSheet {
      var (wb1, t1) := SplitTableOnNewWorksheet(st.wb, st.cur);
      CreateSheetSpec(st.wb);
      WriteTableHeadingParts(wb1, t1);
    }
  }

  /** The header and record rows add no sheet and move no fragment. */
  lemma WriteStepKeepsSheets(st: WriteState, row: Row)
    ensures WriteStep(st, row).wb.titles == st.wb.titles
    ensures WriteStep(st, row).done == st.done && WriteStep(st, row).cur.sheet == st.cur.sheet
  {
    var cur := st.cur;
    var h := if st.headingRow then WriteColumnsHeading(st.wb, cur, row) else (st.wb, cur);
    if st.headingRow {
      WriteHeaderParts(st.wb, cur, HeaderWidths(cur.columnCollection, row), HeaderTitles(cur.columnCollection, row));
    }
    WriteCellsParts(h.0, h.1, RowCells(h.1.columnCollection, row, false));
  }

  /** An iteration keeps every existing sheet, and every fragment's sheet. */
  lemma StepKeepsSheets(w: Writer, st: WriteState, row: Row)
    requires SheetsExist(st)
    ensures SheetsExist(Step(w, st, row))
    ensures SheetCount(Step(w, st, row).wb) >= SheetCount(st.wb)
  {
    var st1 := PaginationStep(w, st.(count := st.count + 1));
    PaginationKeepsSheets(w, st.(count := st.count + 1));
    WriteStepKeepsSheets(st1, row);
  }

  /** The loop keeps every fragment's sheet in existence. */
  lemma {:induction false} RunKeepsSheets(w: Writer, st: WriteState, rows: seq<Row>, k: nat)
    requires k <= |rows| && SheetsExist(st)
    ensures SheetsExist(Run(w, st, rows, k))
    decreases k
  {
    if k > 0 {
      RunKeepsSheets(w, st, rows, k - 1);
      StepKeepsSheets(w, Run(w, st, rows, k - 1), rows[k - 1]);
    }
  }

  // ---------------------------------------------------------------------------
  // After the loop
  // ---------------------------------------------------------------------------

  /** The title of the i-th of n fragments: `sprintf('%s (%s|%s)', ...)`. */
  function FragmentTitle(name: string, i: nat, n: nat): string {
    name + " (" + NatToString(i) + "|" + NatToString(n) + ")"
  }

  /** Different fragment numbers give different titles: the number is read
      back up to the `|`, which no digit can be. */
  lemma FragmentTitlesDistinct(name: string, i: nat, j: nat, n: nat)
    requires i != j
    ensures FragmentTitle(name, i, n) != FragmentTitle(name, j, n)
  {
    var (a, b) := (NatToString(i), NatToString(j));
    var tail := "|" + NatToString(n) + ")";
    var (s, t) := (FragmentTitle(name, i, n), FragmentTitle(name, j, n));
    var off := |name| + 2;
    assert s == (name + " (") + (a + tail) && t == (name + " (") + (b + tail);
    if s == t {
      // Compare the first position where one of the numbers has ended.
      assert a + tail == s[off..] == t[off..] == b + tail;
      var k := if |a| <= |b| then |a| else |b|;
      assert (a + tail)[k] == '|' <==> k == |a|;
      assert (b + tail)[k] == '|' <==> k == |b|;
      assert a == (a + tail)[..|a|] == (b + tail)[..|b|] == b;
      NatToStringInjective(i, j);
    }
  }

  /** With fewer than 100 fragments the renamed title keeps within Excel's
      sheet-name limit that the 21-character cut is meant to respect. */
  lemma FragmentTitleFits(title: string, i: nat, n: nat)
    requires i <= n < 100
    ensures |FragmentTitle(Prefix(title, TITLE_PREFIX_LENGTH), i, n)| <= 29
  {
    NatToStringShort(i);
    NatToStringShort(n);
  }

  /** No two fragments share a sheet. */
  predicate DistinctSheets(tables: seq<Table>) {
    forall i, j :: 0 <= i < j < |tables| ==> tables[i].sheet != tables[j].sheet
  }

  /** Sheet k is the sheet of a fragment from the `from`-th on. */
  predicate FragmentSheetFrom(tables: seq<Table>, from: nat, k: nat) {
    exists j :: from <= j < |tables| && tables[j].sheet == k
  }

  /** The renaming loop from the `from`-th fragment on: fragment j (from 0)
      becomes `name (j+1|n)`. */
  function RenameFrom(wb: Workbook, tables: seq<Table>, name: string, from: nat): (r: Workbook)
    requires from <= |tables|
    requires forall j :: 0 <= j < |tables| ==> tables[j].sheet < SheetCount(wb)
    ensures SheetCount(r) == SheetCount(wb)
    ensures SameExcept(wb, r, {Titles})
    decreases |tables| - from
  {
    if from == |tables| then wb
    else RenameFrom(SetTitle(wb, tables[from].sheet, FragmentTitle(name, from + 1, |tables|)), tables, name, from + 1)
  }

  /** On distinct sheets, every fragment from the `from`-th on gets its
      numbered title and every other sheet keeps its own. */
  lemma {:induction false} RenameFromSpec(wb: Workbook, tables: seq<Table>, name: string, from: nat)
    requires from <= |tables| && DistinctSheets(tables)
    requires forall j :: 0 <= j < |tables| ==> tables[j].sheet < SheetCount(wb)
    ensures var r := RenameFrom(wb, tables, name, from);
      && (forall j :: from <= j < |tables| ==> r.titles[tables[j].sheet] == FragmentTitle(name, j + 1, |tables|))
      && (forall k :: 0 <= k < SheetCount(wb) && !FragmentSheetFrom(tables, from, k) ==> r.titles[k] == wb.titles[k])
    decreases |tables| - from
  {
    if from < |tables| {
      var k0 := tables[from].sheet;
      var wb1 := SetTitle(wb, k0, FragmentTitle(name, from + 1, |tables|));
      RenameFromSpec(wb1, tables, name, from + 1);
      forall k | 0 <= k < SheetCount(wb) && !FragmentSheetFrom(tables, from, k)
        ensures RenameFrom(wb, tables, name, from).titles[k] == wb.titles[k]
      {
        assert k != k0 && !FragmentSheetFrom(tables, from + 1, k);
      }
      assert !FragmentSheetFrom(tables, from + 1, k0);
    }
  }

  /** The freezing loop from the `from`-th fragment on: column 1, two rows
      below the fragment's start row. */
  function FreezeFrom(wb: Workbook, tables: seq<Table>, from: nat): (r: Workbook)
    requires from <= |tables|
    ensures SameExcept(wb, r, {Freezes})
    decreases |tables| - from
  {
    if from == |tables| then wb
    else FreezeFrom(FreezePane(wb, tables[from].sheet, FREEZE_COLUMN, 2 + tables[from].rowStart), tables, from + 1)
  }

  /** Every fragment's sheet from the `from`-th on gets its pane frozen two
      rows below the fragment's start row; on distinct sheets no fragment
      overrides another, and every other sheet keeps its pane. */
  lemma {:induction false} FreezeFromSpec(wb: Workbook, tables: seq<Table>, from: nat)
    requires from <= |tables| && DistinctSheets(tables)
    ensures var r := FreezeFrom(wb, tables, from);
      && (forall j :: from <= j < |tables| ==> GetFreeze(r, tables[j].sheet) == Some((FREEZE_COLUMN, 2 + tables[j].rowStart)))
      && (forall k: nat :: !FragmentSheetFrom(tables, from, k) ==> GetFreeze(r, k) == GetFreeze(wb, k))
    decreases |tables| - from
  {
    if from < |tables| {
      var k0 := tables[from].sheet;
      var wb1 := FreezePane(wb, k0, FREEZE_COLUMN, 2 + tables[from].rowStart);
      FreezeFromSpec(wb1, tables, from + 1);
      forall k: nat | !FragmentSheetFrom(tables, from, k)
        ensures GetFreeze(FreezeFrom(wb, tables, from), k) == GetFreeze(wb, k)
      {
        assert k != k0 && !FragmentSheetFrom(tables, from + 1, k);
      }
      assert !FragmentSheetFrom(tables, from + 1, k0);
    }
  }

  /** The empty-table branch: skip a row, write the message (not sanitized)
      as a string in the current column, skip another row. */
  function WriteEmptyMessage(w: Writer, wb: Workbook, t: Table): (r: (Workbook, Table))
  {
    var t1 := IncrementRow(t);
    var wb1 := SetCell(wb, t1.sheet, t1.columnCurrent, t1.rowCurrent, Cell(Some(w.emptyTableMessage), TypeString));
    (wb1, IncrementRow(t1))
  }

  /** The state the loop starts from: the heading written, one fragment, a
      header row due, nothing counted. */
  function InitialState(wb: Workbook, table: Table): (st: WriteState)
    ensures |st.done| == 0
  {
    var heading := WriteTableHeading(wb, table);
    WriteState(heading.0, [], heading.1, true, 0)
  }

  /** What follows the loop:
      - with more than one fragment, every fragment's sheet renamed after the
        first 21 characters of the first sheet's title;
      - when the last fragment keeps its freeze-panes flag, a pane frozen on
        every fragment's sheet;
      - with no data, the empty-table message;
      - the count of records set on the last fragment only.
      Returns the workbook and the fragments. */
  function Finish(w: Writer, st: WriteState): (r: (Workbook, seq<Table>))
    requires SheetsExist(st)
    ensures |r.1| == |st.done| + 1
  {
    var tables := Fragments(st);
    var wb1 :=
      if |tables| > 1 then RenameFrom(st.wb, tables, Prefix(st.wb.titles[tables[0].sheet], TITLE_PREFIX_LENGTH), 0)
      else st.wb;
    var wb2 := if st.cur.freezePanes then FreezeFrom(wb1, tables, 0) else wb1;
    var empty := if st.count == 0 then WriteEmptyMessage(w, wb2, st.cur) else (wb2, st.cur);
    (empty.0, st.done + [SetCount(empty.1, st.count)])
  }

  /** `writeTableToWorksheet`: the heading, the loop over the data, then what
      follows it (`Finish`). */
  function WriteTableToWorksheet(w: Writer, wb: Workbook, table: Table): (r: (Workbook, seq<Table>))
    requires table.sheet < SheetCount(wb)
    ensures |r.1| > 0
  {
    var st0 := InitialState(wb, table);
    WriteTableHeadingParts(wb, table);
    RunKeepsSheets(w, st0, table.data, |table.data|);
    Finish(w, Run(w, st0, table.data, |table.data|))
  }
}
