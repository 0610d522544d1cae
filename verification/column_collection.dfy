/** Columns and the read-only key-to-column collection (lib/ColumnCollection.php). */
module Columns {
  import opened Wrappers
  import opened CellStyles

  /** A column binds a data key to its heading, display width and style. */
  datatype Column = Column(key: string, heading: string, width: int, cellStyle: CellStyle)

  /** An immutable map from key to column. */
  datatype ColumnCollection = ColumnCollection(columns: map<string, Column>)

  /** The only failure the collection raises: it cannot be edited. */
  datatype CollectionError = NotEditable

  /** The collection a table starts with: no columns. */
  function EmptyCollection(): (c: ColumnCollection)
    ensures forall k :: !OffsetExists(c, k)
  {
    ColumnCollection(map[])
  }

  /** `addColumn`: store the column under its own key, replacing any earlier one. */
  function AddColumn(c: ColumnCollection, column: Column): ColumnCollection {
    ColumnCollection(c.columns[column.key := column])
  }

  /** The last column of the list with key `k`, scanning from the end. */
  function LastWithKey(cols: seq<Column>, k: string): (r: Option<Column>)
    ensures r.Some? ==> r.value.key == k && r.value in cols
    ensures r.None? <==> forall i :: 0 <= i < |cols| ==> cols[i].key != k
    decreases |cols|
  {
    if |cols| == 0 then None
    else if cols[|cols| - 1].key == k then Some(cols[|cols| - 1])
    else LastWithKey(cols[..|cols| - 1], k)
  }

  /** The constructor: add the columns in list order, so for every key the
      last column carrying it wins, and every entry is stored under its own key. */
  function Build(cols: seq<Column>): (c: ColumnCollection)
    ensures forall k :: (k in c.columns) == LastWithKey(cols, k).Some?
    ensures forall k :: k in c.columns ==> Some(c.columns[k]) == LastWithKey(cols, k)
    ensures forall k :: k in c.columns ==> c.columns[k].key == k
    decreases |cols|
  {
    if |cols| == 0 then EmptyCollection()
    else AddColumn(Build(cols[..|cols| - 1]), cols[|cols| - 1])
  }

  /** `offsetExists` (also what `isset($collection[$k])` asks). */
  function OffsetExists(c: ColumnCollection, k: string): bool {
    k in c.columns
  }

  /** `offsetGet`: the column stored under `k`, or null. */
  function OffsetGet(c: ColumnCollection, k: string): (r: Option<Column>)
    ensures r.Some? <==> OffsetExists(c, k)
    ensures r.Some? ==> r.value == c.columns[k]
  {
    if k in c.columns then Some(c.columns[k]) else None
  }

  /** `offsetSet`: always throws; the collection stays as it was. */
  function OffsetSet(c: ColumnCollection, k: string, column: Column): (r: Result<ColumnCollection, CollectionError>)
    ensures r == Failure(NotEditable)
  {
    Failure(NotEditable)
  }

  /** `offsetUnset`: always throws; the collection stays as it was. */
  function OffsetUnset(c: ColumnCollection, k: string): (r: Result<ColumnCollection, CollectionError>)
    ensures r == Failure(NotEditable)
  {
    Failure(NotEditable)
  }

  /** A key is present in a built collection exactly when some input column carries it. */
  lemma BuiltCollectionHasKey(cols: seq<Column>, k: string)
    ensures OffsetExists(Build(cols), k) <==> exists i :: 0 <= i < |cols| && cols[i].key == k
  {
  }

  /** Looking a key up returns the last input column with that key, or null. */
  lemma BuiltCollectionGet(cols: seq<Column>, k: string)
    ensures OffsetGet(Build(cols), k) == LastWithKey(cols, k)
  {
  }

  /** Last duplicate wins: a column that no later column shares its key with
      is what the built collection returns for that key. */
  lemma {:induction false} LaterDuplicateWins(cols: seq<Column>, j: int)
    requires 0 <= j < |cols|
    requires forall i :: j < i < |cols| ==> cols[i].key != cols[j].key
    ensures OffsetGet(Build(cols), cols[j].key) == Some(cols[j])
    decreases |cols|
  {
    if j < |cols| - 1 {
      LaterDuplicateWins(cols[..|cols| - 1], j);
    }
  }
}
