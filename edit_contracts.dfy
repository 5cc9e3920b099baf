/**
 * Values the edit session exchanges with its collaborators: the query engine's result
 * sets and query objects, the table metadata, the edit filters and the view objects
 * (EditRow, EditCell, EditCellResponse) sent back to the client.
 */
module EditContracts {
  import opened Wrappers

  /** A column of a result set, as the query engine describes it. */
  datatype DbColumn = DbColumn(columnName: string, dataTypeName: string)

  /** One result row: the display value of each of its cells, in column order. */
  type Row = seq<string>

  /** A materialized result set: its columns and its rows, in order. */
  datatype ResultSet = ResultSet(columns: seq<DbColumn>, rows: seq<Row>) {
    function RowCount(): (n: nat)
      ensures n == |rows|
    {
      |rows|
    }
  }

  datatype Batch = Batch(resultSet: ResultSet)

  /** The execution status of a query; only Executed lets a session adopt its results. */
  datatype ExecutionState = NotStarted | Executing | Executed

  datatype Query = Query(executionState: ExecutionState, batches: seq<Batch>)

  datatype EditColumnMetadata = EditColumnMetadata(escapedName: string)

  /** The table being edited: its escaped multipart name and its columns, in order. */
  datatype EditTableMetadata = EditTableMetadata(escapedMultipartName: string, columnMetadata: seq<EditColumnMetadata>)

  /** The client's filter; `limitResults` is Python's `None` or an integer. */
  datatype EditInitializerFilter = EditInitializerFilter(limitResults: Option<int>)

  datatype EditCell = EditCell(displayValue: string, isDirty: bool)

  /** A rendered row: its row id and one cell per column. */
  datatype EditRow = EditRow(id: int, cells: seq<EditCell>)

  datatype EditCellResponse = EditCellResponse(cell: EditCell, isRowDirty: bool)

  /** The validation error a pending edit raises for a bad column index or value. */
  datatype CellUpdateError = CellUpdateError(message: string)
}
