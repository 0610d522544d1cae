# Table layout and pagination in php-spreadsheet-helper, in Dafny

This project models the core of `Slam\PhpSpreadsheetHelper` as pure Dafny
functions. That core lays a table of records out on spreadsheet sheets and
splits it across sheets when it outgrows a row budget.

- `Tables` (table.dfy) is the `Table` cursor. It holds the start, end and
  current row and column, the first data row once it is flagged, and the
  row count once it is set. It also models the continuation fragment that a
  split opens on a new sheet.
- `TableWriter` (table_writer.dfy) is `TableWriter::writeTableToWorksheet`
  and its helpers:
  - the heading;
  - the header row with titles and column widths;
  - the data rows and their cell data types;
  - entity sanitisation;
  - the strict `>` pagination trigger;
  - the renaming of the sheets of a split table;
  - pane freezing;
  - the empty-table message.

  The `foreach` over the data is the left fold `Run`. The sheets are the
  abstract workbook of `Workbooks` (workbook.dfy): titles, a cell map, column
  widths, row heights, freeze positions and the default style.
- `Pagination` (pagination.dfy) computes directly where the k-th record
  lands: `Slot` gives its fragment and row. `ClosedSlot` is the same
  position as a quotient and remainder.
- `Columns` (column_collection.dfy) is the read-only, key-indexed
  `ColumnCollection`.
- `CellStyles` (cell_style.dfy) holds the cell-style policies: `Text`,
  `Integer`, `Percentage`, `Amount` and `PaddedInteger`. Each has its data
  type and a style descriptor in place of the library `Style` object.
- `PhpStrings` (php_strings.dfy) holds the PHP built-ins the writer uses:
  `str_replace`, `ucwords`, `mb_substr`, `strlen` and decimal rendering.
- `WriterSteps`, `WriterProperties` and `WriterOutput` hold the proofs. In
  that order, they cover:
  - one loop iteration;
  - any prefix of the loop;
  - one whole `writeTableToWorksheet` call.

The source is partly mid-refactor. The model resolves it as follows:

- `ColumnCollection::count()` does not exist. The guard
  `count != 0 && lookup != null` at lib/TableWriter.php:138 and 170 is
  modelled as "the key is present".
- `Table::setWrittenColumnTitles` does not exist. The titles are kept as an
  ordered key-to-title list on the fragment.
- `new ColumnCollection()` with no argument is an empty collection.

Where the code and its tests disagree, the model follows the code:

- `incrementRow` and `incrementColumn` take the maximum before they advance.
  The end fields therefore hold the last index passed over.
  tests/TableTest.php:48,55 and tests/TableWriterTest.php:40,45 expect one
  more.
- A split copies the parent's `rowStart`. tests/TableTest.php:100 expects 0.
- The default font size is 10. tests/TableTest.php:114 expects 8.
- `getDataRowStart` fails when nothing was flagged.
  tests/TableTest.php:40 expects null.

## Model

| member | source | states |
|---|---|---|
| Tables.NewTableValid | lib/Table.php:13-62 | A new table satisfies the cursor invariant. Start, end and current coincide at the given row and column. Nothing is flagged or counted and no column is known. Freeze panes are on, the font size is 10, and there is no row height and no wrap. |
| Tables.ApplyOp | lib/Table.php:76-126 | `incrementRow`, `incrementColumn`, `resetColumn` and `flagDataRowStart` change only their own axis. An increment advances the current index by one and raises the end to the index it leaves. A reset returns to the start column without touching the end. The flag records the current row. Each operation keeps the cursor invariant. |
| Tables.CursorOpsKeepInvariant | lib/Table.php:96-126 | Any sequence of cursor operations keeps the invariant and never moves a start. The current row grows by the number of row increments. After at least one increment, the end row lags the current row by exactly one. |
| Tables.CursorOpsWithoutRowIncrement | lib/Table.php:117-126 | Column operations and the flag leave the end and current rows alone. |
| Tables.TableTestCursorSequence | lib/Table.php:96-126 | The cursor walk of the table test (row 3, column 12) ends with the data row flagged at 4, end row 4, current row 5, end column 13 and current column 14. A reset returns the current column to 12. |
| Tables.GetDataRowStart | lib/Table.php:69-74 | Fails if and only if no data row was flagged, and otherwise returns the flagged row. |
| Tables.Count | lib/Table.php:212-219 | Fails if and only if no count was set, and otherwise returns it. |
| Tables.IsEmpty | lib/Table.php:221-224 | Fails exactly when `count` would fail, and otherwise holds if and only if the count is 0. |
| Tables.CountAfterSetCount | lib/Table.php:207-224 | After `setCount(n)`, `count()` returns n and `isEmpty()` holds if and only if n is 0. The cursor and every other setting are unchanged. |
| Tables.SettersReadBack | lib/Table.php:141-205 | Each setter stores its value, which its getter reads back. It leaves the cursor, the sheet and every other setting unchanged. |
| Tables.SplitTableFresh | lib/Table.php:226-239 | A split creates a sheet at the next index. The new fragment's rows all sit at the parent's `rowStart` and its columns at the parent's `columnStart`. It copies the heading, data, collection and freeze flag. Font size, row height and wrap return to their defaults, and nothing is flagged or counted. |
| Tables.SplitKeepsParentRowStart | lib/Table.php:226-239 | A split of a table started at row 3, column 12 starts at row 3, column 12 and keeps the freeze flag. |
| Columns.EmptyCollection | lib/Table.php:61 | The collection a new table gets knows no key. |
| Columns.LastWithKey | lib/ColumnCollection.php:21-24 | Returns a column with the key that occurs in the list. Returns nothing if and only if no column of the list has the key. |
| Columns.Build | lib/ColumnCollection.php:14-24 | A key is stored if and only if some input column has it. The stored column is the last input column with that key, and its `getKey()` equals its map key. |
| Columns.OffsetGet | lib/ColumnCollection.php:41-44 | Returns a column if and only if `offsetExists` holds, and then the stored one. |
| Columns.OffsetSet | lib/ColumnCollection.php:26-29 | Always fails with "not editable". |
| Columns.OffsetUnset | lib/ColumnCollection.php:36-39 | Always fails with "not editable". |
| Columns.BuiltCollectionHasKey | lib/ColumnCollection.php:31-34 | `offsetExists(k)` on a built collection holds if and only if some input column has key k. |
| Columns.BuiltCollectionGet | lib/ColumnCollection.php:14-24 | `offsetGet(k)` on a built collection is the last input column with key k, or null. |
| Columns.LaterDuplicateWins | lib/ColumnCollection.php:23 | A column that no later column shares a key with is the one `offsetGet` returns for its key. |
| CellStyles.GetDataType | lib/CellStyle/Text.php:14-17 | Text is the only string style. Integer, Percentage, Amount and PaddedInteger are numeric. No style is null. |
| CellStyles.StyleCell | lib/CellStyle/Integer.php:19-23 | Text is left-aligned with no format. Integer is centred with `#,##0`. Percentage sets `#,##0.000` and Amount sets `#,##0.00`, and neither touches alignment. PaddedInteger is centred with a format of `maxLength` zeros. |
| CellStyles.TextKeepsNumberFormat | lib/CellStyle/Text.php:19-22 | Styling as Text sets left alignment and keeps whatever number format the cell had. |
| CellStyles.PercentageAndAmountKeepAlignment | lib/CellStyle/Percentage.php:20-23 | Percentage and Amount set their format code and keep the cell's alignment. |
| CellStyles.StyleCellIdempotent | lib/CellStyle/Integer.php:12-24 | Styling a cell twice with the same style gives the same result as once, so the stateless styles give the same descriptor on every call. |
| CellStyles.Decorate | lib/CellStyle/PaddedInteger.php:27-34 | Returns its argument unchanged, null included. A null leaves `maxLength` alone. A string raises `maxLength` to at least its UTF-8 byte length. |
| CellStyles.DecorateAllTracksLongest | lib/CellStyle/PaddedInteger.php:14-31 | After any sequence of `decorate` calls, the contents come back unchanged. `maxLength` is the larger of its start value and the longest byte length of a non-null input, so it never decreases. |
| CellStyles.PaddedFormatAfterDecorating | lib/CellStyle/PaddedInteger.php:21-25 | Starting from 0, the format code is as many zeros as the longest byte length decorated, and empty if nothing was. |
| PhpStrings.StrReplaceWithoutOccurrence | lib/TableWriter.php:202-206 | `str_replace` leaves a subject alone when the search string does not occur in it. |
| PhpStrings.UcWordsPointwise | lib/TableWriter.php:136 | `ucwords` upper-cases exactly the characters that begin a word and leaves all others as they were. |
| PhpStrings.NatToStringRoundTrip | lib/TableWriter.php:67 | Reading back the decimal rendering of a fragment number gives the number. |
| TableWriter.SanitizeIsStrReplace | lib/TableWriter.php:196-207 | `sanitize` is `str_replace` with the five entity pairs applied in map order, each over the previous output. It never lengthens the string. |
| TableWriter.SanitizeWithoutAmpersand | lib/TableWriter.php:11-17 | A string with no `&` comes back unchanged. |
| TableWriter.SanitizeDecodesInMapOrder | lib/TableWriter.php:11-17 | Because the passes chain, `&amp;lt;` is decoded twice, to `<`. |
| TableWriter.SanitizeReturns | lib/TableWriter.php:196-207 | null is returned as null. A string comes back as the chained `str_replace` of the five entity patterns, in map order, and is never longer. |
| TableWriter.HeaderTitleIsUcWords | lib/TableWriter.php:136 | The title derived from a key is `ucwords` of the key with underscores turned into spaces, and has the key's length. |
| TableWriter.ResolveHeader | lib/TableWriter.php:134-141 | A key in the collection takes that column's width and heading. Any other key gets width 10 and the derived title. |
| TableWriter.CellDataType | lib/TableWriter.php:163-174 | A cell is NULL if and only if its value is null. A non-null data cell whose key is in the collection takes that column style's type. A title cell, or a key outside the collection, is STRING. |
| TableWriter.WrittenCell | lib/TableWriter.php:163-181 | A written cell holds the sanitised value with the type resolved for it. |
| TableWriter.PutKey | lib/TableWriter.php:144 | Array assignment appends a new key at the end. An existing key is updated in place, so the length is unchanged. Other entries are untouched and the key ends up holding the new value. |
| TableWriter.HeaderTitlesResolved | lib/TableWriter.php:130-147 | The `$titles` array lists each key of the row in order, paired with its resolved title. |
| TableWriter.RenameFromSpec | lib/TableWriter.php:63-68 | Fragment j of n gets the title `name (j+1|n)`, and every other sheet keeps its title. |
| TableWriter.FragmentTitlesDistinct | lib/TableWriter.php:67 | Two fragments of the same split table never get the same title. |
| TableWriter.FragmentTitleFits | lib/TableWriter.php:60-61 | With fewer than 100 fragments, a renamed title has at most 29 characters, within the sheet-name limit the code comment cites. |
| TableWriter.FreezeFromSpec | lib/TableWriter.php:86-90 | Every fragment's sheet is frozen at column 1, row `2 + rowStart`, and every other sheet keeps its freeze position. |
| TableWriter.RunKeepsSheets | lib/TableWriter.php:37-54 | Throughout the loop, every fragment sits on an existing sheet. |
| Pagination.SlotStep | lib/TableWriter.php:40-45 | Each record goes on the row after the previous one when that row is within the budget. Otherwise it opens the next fragment at `rowStart + 2`. |
| Pagination.SlotsOrdered | lib/TableWriter.php:37-54 | Later records land strictly after earlier ones: in a later fragment, or lower down the same one. So no two records share a place. |
| Pagination.SlotWithinBudget | lib/TableWriter.php:40 | A record that continues a fragment sits within the row budget. One that opens a fragment sits two rows below the heading. |
| Pagination.FragmentOpened | lib/TableWriter.php:40-45 | Every fragment number reached was opened by some earlier record. |
| Pagination.SlotClosedForm | lib/TableWriter.php:37-54 | The record-by-record placement agrees with a quotient-and-remainder placement, given the first fragment's room and each later fragment's room. |
| WriterSteps.WriteRowCursor | lib/TableWriter.php:158-191 | `writeRow` advances the current row by exactly one and leaves the current column just after the row's last cell. It keeps the flagged data row and every setting. |
| WriterSteps.WriteRowCells | lib/TableWriter.php:160-184 | The i-th pair of a row is written at column `columnStart + i` of the current row, whatever its key. |
| WriterSteps.WriteCellsRowHeights | lib/TableWriter.php:186-188 | A row gets a height only when the table has one, and only the current row of its sheet. |
| WriterSteps.WriteTableHeadingCursor | lib/TableWriter.php:108-122 | Writing the heading resets the column and advances the row by one. |
| WriterSteps.WriteTableHeadingStyle | lib/TableWriter.php:110-112 | The heading sets the workbook's default font size to the table's, with wrap on. |
| WriterSteps.WriteHeaderCursor | lib/TableWriter.php:127-153 | The header row records the titles and flags the row after it as the first data row. |
| WriterSteps.WriteColumnsHeadingCells | lib/TableWriter.php:144-149 | The header row holds each key's resolved title, sanitised, as STRING. |
| WriterSteps.WriteColumnsHeadingWidths | lib/TableWriter.php:135-143 | Column `columnStart + i` gets the width resolved for the row's i-th key. |
| WriterSteps.PaginationStepSplit | lib/TableWriter.php:40-45 | A split files the current fragment and opens one on a new sheet. The new fragment's heading is written, its font size and row height are reset, and the next row is again a header row. |
| WriterSteps.StepCursor | lib/TableWriter.php:37-54 | One iteration increments the count and ends one row past the record it wrote. It files a fragment and adds a sheet exactly when the trigger fires. |
| WriterSteps.StepDataRow | lib/TableWriter.php:47-52 | After a split, the first data row is `rowStart + 2`. After the first header, it is the row after the header. Otherwise it is unchanged. |
| WriterSteps.StepRowHeights | lib/TableWriter.php:186-188 | Without a split, the rows written in one iteration get the table's height when it has one. After a split, no height is set. |
| WriterSteps.StepFrame | lib/TableWriter.php:37-54 | An iteration never changes a cell of an old sheet other than the current one, or a row above the current row. |
| WriterProperties.RunShape | lib/TableWriter.php:37-54 | After k records the count is k. The cursor is one row below record k-1's slot, on that fragment's sheet. Every filed fragment sits on its own sheet and keeps the original's start, heading, data, collection and freeze flag. |
| WriterProperties.RunRecordPlaced | lib/TableWriter.php:53 | Record k lands at its slot and stays there through every later iteration. |
| WriterProperties.RunHeaderPlaced | lib/TableWriter.php:47-51 | The record that opens a fragment has the header row just above it, and later iterations leave it alone. |
| WriterProperties.RunFragments | lib/TableWriter.php:40-42 | The loop produces one fragment per slot fragment, each on its own newly created sheet. |
| WriterProperties.RunDataRows | lib/TableWriter.php:149-152 | Every filed fragment's first data row follows its header row. |
| WriterOutput.InitialStateSpec | lib/TableWriter.php:32-36 | Before the loop, only the heading cell and the default style have changed, and the next row is the one after the heading. |
| WriterOutput.FinishCells | lib/TableWriter.php:92-101 | With records, the loop's cells are kept. With none, only the message cell one row below the cursor is added, as STRING. |
| WriterOutput.OutputFragments | lib/TableWriter.php:30-106 | The call returns as many fragments as the slots need. It adds one sheet per extra fragment. Only the last fragment is counted, with the number of records. The first keeps the table's count and every later one has none, so `count()` fails on it. |
| WriterOutput.OutputRecords | lib/TableWriter.php:37-54 | Every record's i-th value ends up at column `columnStart + i` of its slot's row and sheet, sanitised and typed. |
| WriterOutput.OutputHeaders | lib/TableWriter.php:47-51 | The row above the first record of every fragment holds the resolved titles of that record's keys. |
| WriterOutput.OutputWidths | lib/TableWriter.php:134-143 | Every fragment's columns get the widths resolved from the keys of its first record. |
| WriterOutput.OutputHeadings | lib/TableWriter.php:32-43 | Every fragment shows the heading: the first at the original row, the others at `rowStart`. |
| WriterOutput.OutputFrame | lib/TableWriter.php:30-106 | Cells of other old sheets, and cells above the heading row, are unchanged. |
| WriterOutput.OutputTitles | lib/TableWriter.php:56-69 | A split table renames fragment j of n to `first 21 characters of the first title (j|n)`. Other old sheets keep their titles. A table that was not split keeps every title. |
| WriterOutput.OutputFreezes | lib/TableWriter.php:86-90 | With freeze panes on, every fragment's sheet is frozen at column 1, row `2 + rowStart`, and no other old sheet changes. With it off, no freeze changes. |
| WriterOutput.OutputEmpty | lib/TableWriter.php:92-103 | No records gives one fragment with count 0, and its first data row is left as it was. The message sits, as STRING, two rows below the heading in its column, and the cursor ends three rows below the heading. No other cell changes. |
| WriterOutput.OutputStyle | lib/TableWriter.php:108-112 | The default style ends with wrap on and font size 10 after a split, or the table's size otherwise. |
| WriterOutput.OutputDataRows | lib/TableWriter.php:149-152 | Every later fragment's first data row is `rowStart + 2`. The first fragment's is two rows below the heading when the first record stays on it, and is unchanged otherwise. |
| WriterOutput.OutputRowHeights | lib/TableWriter.php:186-188 | With a row height set, the first sheet's rows from the header to the last row written there get it. No other row height changes, since fragments opened by a split have none. |
| WriterOutput.OutputWidthsFrame | lib/TableWriter.php:143 | Other old sheets keep their column widths. |

## Left out

- The post-write styling loop (lib/TableWriter.php:71-84) is not modelled. It runs `foreach` over a `ColumnCollection`, which implements only `ArrayAccess`. As written, it iterates no column, so it changes nothing.
- Real PhpSpreadsheet objects are not modelled: worksheets, `Style`, `Font`, `Alignment` and the dimension objects. They become the abstract workbook and style descriptors. The default style keeps only the font size and the wrap flag.
- `(string) $value` at lib/TableWriter.php:205 is not modelled, because it is PHP float and integer formatting. Values arrive already as optional strings.
- Saving and loading xlsx files is not modelled, because it is I/O in the library.
- `CellStyle\Date` and date-serial conversion are not modelled, because that code is not part of this model.
- lib/CellStyle/ItalianFiscalCode.php is not modelled. It uses a legacy formatting API and has no `getDataType`.
- The interface files are not modelled, because they only declare signatures. The datatypes follow their shape.
- `createSheet` naming is simplified: a new sheet's title is the constant `Worksheet`. The library's de-duplicating suffixes are not modelled, and the renaming overwrites the title for every split table.
- `textWrap` is stored and read back, and a split resets it. The writer never reads it, so nothing depends on it.
- `TableWriter.FragmentTitleFits`: bounds the title only for fewer than 100 fragments, because that covers the two-digit counters the 21-character cut was sized for.
- `TableWriter.HeaderTitleIsUcWords` (and `HeaderTitle`): a key PHP stores as an integer, such as `"2017"`, makes lib/TableWriter.php:136 throw a `TypeError`. `array_keys` returns it as an int, and `str_replace` rejects that under `strict_types` (line 3). The model's record keys are strings, so it derives the title `2017` and writes the header instead of failing.
- `WriterOutput.OutputHeaders`: assumes the record's keys are distinct, as they are in every PHP array.
- The written-column titles of each fragment are computed, as `writtenColumnTitles`, but no whole-call theorem states them.
