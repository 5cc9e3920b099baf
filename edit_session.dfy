/**
 * The in-memory edit session: it adopts the result set of its initialization query,
 * caches one pending row edit per row id, and renders windows of rows with the
 * cached edits laid over the original display values.
 */
module EditSession {
  import opened Wrappers
  import opened EditContracts
  import QueryBuilder

  /** What the query executor hands to the completion handler: a query, or none and a message. */
  datatype DataEditSessionExecutionState = DataEditSessionExecutionState(query: Option<Query>, message: Option<string>)

  /** The exception the completion handler passes to `on_failure`. */
  datatype CompletionError =
    | Raised(message: Option<string>)   // `Exception(execution_state.message)`: no query
    | ExecutionNotCompleted            // `Exception('Execution not completed')`
    | NoBatch                          // `batches[0]` on a query without batches
    | NoTableMetadata                  // `extend` called on a session whose metadata is `None`

  /** Which of the two callbacks the completion handler invokes, and with what. */
  datatype Completion = OnSuccess | OnFailure(error: CompletionError)

  /**
   * The session's collaborators, which this model does not look into: the pending-row
   * entity `E` (the `RowUpdate` constructor, `set_cell_value`, `get_edit_row`),
   * `EditTableMetadata.extend`, and the driver's identifier quoting.
   */
  datatype Collaborators<!E> = Collaborators(
    newRowUpdate: (int, ResultSet, Option<EditTableMetadata>) -> E,
    setCellValue: (E, int, string) -> (E, Result<EditCellResponse, CellUpdateError>),
    getEditRow: (E, Row) -> EditRow,
    extend: (EditTableMetadata, seq<DbColumn>) -> EditTableMetadata,
    quoteIdentifier: string -> string)

  const ExecutionNotCompletedMessage := "Execution not completed"

  /** The message of the exception the handler reports. */
  function ErrorMessage(e: CompletionError): (m: Option<string>)
    ensures e.Raised? ==> m == e.message
    ensures e == ExecutionNotCompleted ==> m == Some(ExecutionNotCompletedMessage)
  {
    match e
    case Raised(message) => message
    case ExecutionNotCompleted => Some(ExecutionNotCompletedMessage)
    case NoBatch => Some("list index out of range")
    case NoTableMetadata => Some("'NoneType' object has no attribute 'extend'")
  }

  /** `_validate_query_for_session`: only an executed query passes. */
  function ValidateQueryForSession(query: Query): (r: Option<CompletionError>)
    ensures r.None? <==> query.executionState == Executed
    ensures r.Some? ==> r.value == ExecutionNotCompleted
  {
    if query.executionState != Executed then Some(ExecutionNotCompleted) else None
  }

  /**
   * The result set the completion handler adopts, or the exception raised before any
   * field is assigned.
   */
  function AdoptedResultSet(executionState: DataEditSessionExecutionState): (r: Result<ResultSet, CompletionError>)
    ensures executionState.query.None? ==> r == Err(Raised(executionState.message))
    ensures executionState.query.Some? && executionState.query.value.executionState != Executed
            ==> r == Err(ExecutionNotCompleted)
    ensures r.Ok? <==> executionState.query.Some? && executionState.query.value.executionState == Executed
                       && |executionState.query.value.batches| > 0
    ensures r.Ok? ==> r.value == executionState.query.value.batches[0].resultSet
  {
    match executionState.query
    case None => Err(Raised(executionState.message))
    case Some(query) =>
      match ValidateQueryForSession(query)
      case Some(e) => Err(e)
      case None => if |query.batches| == 0 then Err(NoBatch) else Ok(query.batches[0].resultSet)
  }

  /** The callback the completion handler invokes, given whether the session has table metadata. */
  function CompletionOutcome(executionState: DataEditSessionExecutionState, hasMetadata: bool): (c: Completion)
    ensures c == OnSuccess <==> AdoptedResultSet(executionState).Ok? && hasMetadata
    ensures AdoptedResultSet(executionState).Err? ==> c == OnFailure(AdoptedResultSet(executionState).error)
    ensures AdoptedResultSet(executionState).Ok? && !hasMetadata ==> c == OnFailure(NoTableMetadata)
    ensures executionState.query.None? ==> c.OnFailure? && ErrorMessage(c.error) == executionState.message
    ensures executionState.query.Some? && executionState.query.value.executionState != Executed
            ==> c.OnFailure? && ErrorMessage(c.error) == Some(ExecutionNotCompletedMessage)
  {
    match AdoptedResultSet(executionState)
    case Err(e) => OnFailure(e)
    case Ok(_) => if hasMetadata then OnSuccess else OnFailure(NoTableMetadata)
  }

  /** The existing cache entry for `rowId`, or the newly created one when there is none. */
  function GetOrCreate<E>(cache: map<int, E>, rowId: int, created: E): (e: E)
    ensures rowId in cache ==> e == cache[rowId]
    ensures rowId !in cache ==> e == created
  {
    if rowId in cache then cache[rowId] else created
  }

  /**
   * `update_cell` on the cache: get or create the entry for `rowId`, let it apply the
   * edit, and return exactly what `set_cell_value` returns.
   */
  function ApplyCellUpdate<E>(ops: Collaborators<E>, cache: map<int, E>, resultSet: ResultSet,
                              metadata: Option<EditTableMetadata>, rowId: int, columnIndex: int, newValue: string)
    : (r: (map<int, E>, Result<EditCellResponse, CellUpdateError>))
    ensures rowId in r.0
    ensures r.0.Keys == cache.Keys + {rowId}
    ensures forall k :: k in cache && k != rowId ==> r.0[k] == cache[k]
    ensures rowId in cache ==> (r.0[rowId], r.1) == ops.setCellValue(cache[rowId], columnIndex, newValue)
    ensures rowId !in cache ==>
              (r.0[rowId], r.1) == ops.setCellValue(ops.newRowUpdate(rowId, resultSet, metadata), columnIndex, newValue)
  {
    var entry := GetOrCreate(cache, rowId, ops.newRowUpdate(rowId, resultSet, metadata));
    var (updated, result) := ops.setCellValue(entry, columnIndex, newValue);
    (cache[rowId := updated], result)
  }

  /** A second edit of the same row works on the entry the first one left and adds no key. */
  lemma SecondUpdateReusesEntry<E>(ops: Collaborators<E>, cache: map<int, E>, resultSet: ResultSet,
                                   metadata: Option<EditTableMetadata>, rowId: int,
                                   col1: int, value1: string, col2: int, value2: string)
    ensures var first := ApplyCellUpdate(ops, cache, resultSet, metadata, rowId, col1, value1);
            var second := ApplyCellUpdate(ops, first.0, resultSet, metadata, rowId, col2, value2);
            && second.0.Keys == first.0.Keys
            && (second.0[rowId], second.1) == ops.setCellValue(first.0[rowId], col2, value2)
  {
  }

  /** One `update_cell` call: row id, column index and new value. */
  datatype CellEdit = CellEdit(rowId: int, columnIndex: int, newValue: string)

  /** The cache after a sequence of `update_cell` calls, in order. */
  function ApplyCellUpdates<E>(ops: Collaborators<E>, cache: map<int, E>, resultSet: ResultSet,
                               metadata: Option<EditTableMetadata>, edits: seq<CellEdit>): map<int, E>
    decreases |edits|
  {
    if |edits| == 0 then cache
    else
      var e := edits[0];
      ApplyCellUpdates(ops, ApplyCellUpdate(ops, cache, resultSet, metadata, e.rowId, e.columnIndex, e.newValue).0,
                       resultSet, metadata, edits[1..])
  }

  /** The row ids a sequence of edits touches. */
  function EditedRows(edits: seq<CellEdit>): set<int>
  {
    set i | 0 <= i < |edits| :: edits[i].rowId
  }

  /**
   * Edits add exactly the rows they touch to the cache, never remove an entry, and leave
   * the entries of the rows they do not touch as they were.
   */
  lemma {:induction false} CacheGrowsByEditedRows<E>(ops: Collaborators<E>, cache: map<int, E>, resultSet: ResultSet,
                                                     metadata: Option<EditTableMetadata>, edits: seq<CellEdit>)
    ensures ApplyCellUpdates(ops, cache, resultSet, metadata, edits).Keys == cache.Keys + EditedRows(edits)
    ensures forall k :: k in cache && k !in EditedRows(edits) ==>
              ApplyCellUpdates(ops, cache, resultSet, metadata, edits)[k] == cache[k]
    decreases |edits|
  {
    if |edits| > 0 {
      var e := edits[0];
      var next := ApplyCellUpdate(ops, cache, resultSet, metadata, e.rowId, e.columnIndex, e.newValue).0;
      CacheGrowsByEditedRows(ops, next, resultSet, metadata, edits[1..]);
      assert EditedRows(edits) == {e.rowId} + EditedRows(edits[1..]) by {
        forall r | r in EditedRows(edits) ensures r in {e.rowId} + EditedRows(edits[1..]) {
          var i :| 0 <= i < |edits| && edits[i].rowId == r;
          if i > 0 { assert edits[1..][i - 1].rowId == r; }
        }
        forall r | r in EditedRows(edits[1..]) ensures r in EditedRows(edits) {
          var i :| 0 <= i < |edits[1..]| && edits[1..][i].rowId == r;
          assert edits[i + 1].rowId == r;
        }
      }
    } else {
      assert EditedRows(edits) == {};
    }
  }

  /**
   * The rows `ResultSetSubset.from_result_set` takes: `[start, end)` with the end clamped to
   * the row count, or none when `start` is not below the row count.
   */
  function Window(resultSet: ResultSet, startIndex: nat, endIndex: int): (w: seq<Row>)
    ensures startIndex >= resultSet.RowCount() ==> w == []
    ensures endIndex <= startIndex ==> w == []
    ensures startIndex < resultSet.RowCount() ==> startIndex + |w| <= resultSet.RowCount()
    ensures startIndex < resultSet.RowCount() && startIndex <= endIndex ==>
              |w| == (if endIndex < resultSet.RowCount() then endIndex else resultSet.RowCount()) - startIndex
    ensures forall i :: 0 <= i < |w| ==> w[i] == resultSet.rows[startIndex + i]
  {
    var count := resultSet.RowCount();
    if startIndex < count then
      var stop := if endIndex < startIndex then startIndex else if endIndex < count then endIndex else count;
      resultSet.rows[startIndex..stop]
    else []
  }

  /** A row with no pending edit: its original display values, none of them dirty. */
  function CleanEditRow(rowId: int, row: Row): (r: EditRow)
    ensures r.id == rowId
    ensures |r.cells| == |row|
    ensures forall j :: 0 <= j < |row| ==> r.cells[j] == EditCell(row[j], false)
  {
    EditRow(rowId, seq(|row|, j requires 0 <= j < |row| => EditCell(row[j], false)))
  }

  class DataEditorSession<E> {
    const ops: Collaborators<E>
    var sessionCache: map<int, E>
    var nextRowId: Option<nat>
    var isInitialized: bool
    var resultSet: Option<ResultSet>
    var tableMetadata: Option<EditTableMetadata>

    /** An initialized session holds a result set, and the next row id is its row count. */
    ghost predicate Valid()
      reads this
    {
      isInitialized ==> resultSet.Some? && nextRowId == Some(resultSet.value.RowCount())
    }

    constructor (ops: Collaborators<E>)
      ensures Valid()
      ensures this.ops == ops
      ensures sessionCache == map[] && nextRowId == None && !isInitialized
      ensures resultSet == None && tableMetadata == None
    {
      this.ops := ops;
      sessionCache := map[];
      nextRowId := None;
      isInitialized := false;
      resultSet := None;
      tableMetadata := None;
    }

    /**
     * `initialize`, with the metadata factory's answer given as `metadata`: store the
     * metadata, then build the query text handed to the executor. A builder error
     * propagates to the caller with the metadata already stored.
     */
    method Initialize(metadata: EditTableMetadata, filters: EditInitializerFilter)
      returns (query: Result<string, QueryBuilder.QueryError>)
      requires Valid()
      modifies this`tableMetadata
      ensures Valid()
      ensures tableMetadata == Some(metadata)
      ensures query == QueryBuilder.ConstructInitializeQuery(ops.quoteIdentifier, metadata, filters)
    {
      tableMetadata := Some(metadata);
      query := QueryBuilder.ConstructInitializeQuery(ops.quoteIdentifier, metadata, filters);
    }

    /**
     * `on_query_execution_complete`: adopt the first batch's result set and report success,
     * or report the failure. A failure before adoption changes nothing; a session without
     * metadata adopts the result set and then fails in `extend`.
     */
    method OnQueryExecutionComplete(executionState: DataEditSessionExecutionState) returns (outcome: Completion)
      requires Valid()
      modifies this`resultSet, this`nextRowId, this`isInitialized, this`tableMetadata
      ensures Valid()
      ensures outcome == CompletionOutcome(executionState, old(tableMetadata).Some?)
      ensures AdoptedResultSet(executionState).Err? ==>
                && resultSet == old(resultSet) && nextRowId == old(nextRowId)
                && isInitialized == old(isInitialized) && tableMetadata == old(tableMetadata)
      ensures AdoptedResultSet(executionState).Ok? ==>
                var adopted := AdoptedResultSet(executionState).value;
                && resultSet == Some(adopted)
                && nextRowId == Some(adopted.RowCount())
                && isInitialized
                && tableMetadata == (if old(tableMetadata).Some?
                                     then Some(ops.extend(old(tableMetadata).value, adopted.columns))
                                     else None)
    {
      var adopted := AdoptedResultSet(executionState);
      match adopted {
        case Err(e) =>
          outcome := OnFailure(e);
        case Ok(rs) =>
          resultSet := Some(rs);
          nextRowId := Some(rs.RowCount());
          isInitialized := true;
          match tableMetadata {
            case None =>
              outcome := OnFailure(NoTableMetadata);
            case Some(md) =>
              tableMetadata := Some(ops.extend(md, rs.columns));
              outcome := OnSuccess;
          }
      }
    }

    /**
     * `update_cell`: get or create the pending edit of `rowId`, apply the edit to it, and
     * return what it returns. Only the entry of `rowId` changes.
     */
    method UpdateCell(rowId: int, columnIndex: int, newValue: string)
      returns (result: Result<EditCellResponse, CellUpdateError>)
      requires Valid() && isInitialized
      modifies this`sessionCache
      ensures Valid()
      ensures (sessionCache, result)
           == ApplyCellUpdate(ops, old(sessionCache), resultSet.value, tableMetadata, rowId, columnIndex, newValue)
      ensures rowId in sessionCache && sessionCache.Keys == old(sessionCache.Keys) + {rowId}
      ensures forall k :: k in old(sessionCache) && k != rowId ==> sessionCache[k] == old(sessionCache[k])
    {
      var editRow: E;
      ghost var cache := sessionCache;
      if rowId in sessionCache {
        editRow := sessionCache[rowId];
      } else {
        editRow := ops.newRowUpdate(rowId, resultSet.value, tableMetadata);
        sessionCache := sessionCache[rowId := editRow];
      }
      var (updated, response) := ops.setCellValue(editRow, columnIndex, newValue);
      sessionCache := sessionCache[rowId := updated];
      result := response;
      assert editRow == GetOrCreate(cache, rowId, ops.newRowUpdate(rowId, resultSet.value, tableMetadata));
      assert sessionCache == cache[rowId := updated];
    }

    /**
     * `get_rows`: one row per window row, with id `startIndex + offset`. A row without a
     * pending edit shows its original values, none dirty; a row with one is rendered by
     * its entry from the FIRST window row, since `get_rows` passes `subset.rows[0]`.
     */
    method GetRows(startIndex: nat, endIndex: int) returns (editRows: seq<EditRow>)
      requires Valid() && isInitialized
      ensures startIndex >= resultSet.value.RowCount() ==> editRows == []
      ensures |editRows| == |Window(resultSet.value, startIndex, endIndex)|
      ensures forall i :: 0 <= i < |editRows| && startIndex + i !in sessionCache ==>
                editRows[i] == CleanEditRow(startIndex + i, resultSet.value.rows[startIndex + i])
      ensures forall i :: 0 <= i < |editRows| && startIndex + i in sessionCache ==>
                editRows[i] == ops.getEditRow(sessionCache[startIndex + i], resultSet.value.rows[startIndex])
    {
      var subset := Window(resultSet.value, startIndex, endIndex);
      editRows := [];
      var index := 0;
      while index < |subset|
        invariant 0 <= index <= |subset|
        invariant |editRows| == index
        invariant forall i :: 0 <= i < index && startIndex + i !in sessionCache ==>
                    editRows[i] == CleanEditRow(startIndex + i, subset[i])
        invariant forall i :: 0 <= i < index && startIndex + i in sessionCache ==>
                    editRows[i] == ops.getEditRow(sessionCache[startIndex + i], subset[0])
      {
        var row := subset[index];
        var rowId := startIndex + index;
        if rowId in sessionCache {
          editRows := editRows + [ops.getEditRow(sessionCache[rowId], subset[0])];
        } else {
          editRows := editRows + [CleanEditRow(rowId, row)];
        }
        index := index + 1;
      }
    }
  }
}
