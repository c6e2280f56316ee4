/** A Parquet file as its reader hands it out: row groups of record batches of rows. */
module Corpus {
  import opened Decimal

  datatype Cell = Null | Text(text: string) | Number(number: int) | Truth(truth: bool)

  type Row = map<string, Cell>
  type Batch = seq<Row>
  type RowGroup = seq<Batch>

  /** `utf8Columns` are the columns the reader yields as a `StringArray`; a column stored as
      another type fails the builder's downcast even when its cells hold text. */
  datatype ParquetFile = ParquetFile(utf8Columns: set<string>, rowGroups: seq<RowGroup>)

  /** Row groups are numbered by a `usize`. */
  type DataFile = f: ParquetFile | |f.rowGroups| < U64_LIMIT witness ParquetFile({}, [])

  function CellAt(row: Row, column: string): Cell {
    if column in row then row[column] else Null
  }

  /** The rows of a row group, batch boundaries removed. */
  function GroupRows(group: RowGroup): seq<Row> {
    if group == [] then [] else GroupRows(group[..|group| - 1]) + group[|group| - 1]
  }

  /** Row group `g` of the file holds `value` in an indexable `column`. */
  ghost predicate Holds(file: DataFile, column: string, g: nat, value: string) {
    && column in file.utf8Columns
    && g < |file.rowGroups|
    && exists row :: row in GroupRows(file.rowGroups[g]) && CellAt(row, column) == Text(value)
  }
}
