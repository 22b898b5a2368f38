/**
 * The System.Data shapes the extractor produces: a DataSet is an ordered
 * sequence of named tables; a table has named string columns and rows of
 * cells, where a cell holds a string or is null.
 */
module DataSets {
  import opened Web

  /** A DataRow item: `None` is null / DBNull. */
  type Cell = Option<string>

  type Row = seq<Cell>

  datatype DataTable = DataTable(name: string, columns: seq<string>, rows: seq<Row>)

  type DataSet = seq<DataTable>
}
