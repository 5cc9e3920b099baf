# Data editor session — a verified model

This project models the edit session of the PostgreSQL tools service's "edit data"
feature (`DataEditorSession` in `pgsqltoolsservice/edit_data/data_editor_session.py`).
A session builds the query that loads the table being edited, and later receives the
query's completion. On a successful completion it adopts the first batch's result set.
It keeps at most one pending row edit (`RowUpdate`) per row id, and renders windows of
rows with the pending edits laid over the original display values.

Modules:

- `Wrappers` (`wrappers.dfy`): `Option` for Python's `None`, and `Result` for an exception path.
- `EditContracts` (`edit_contracts.dfy`): the values the session exchanges with its
  collaborators, such as result sets, queries, table metadata, filters, `EditRow`,
  `EditCell` and `EditCellResponse`.
- `QueryBuilder` (`query_builder.dfy`): `_construct_initialize_query` as a pure function
  that returns the query text or an error.
- `EditSession` (`edit_session.dfy`): the `DataEditSessionExecutionState` record, the
  completion handler's decision functions, the cache update on values, and the class
  `DataEditorSession` itself. The class fields are the Python class's `_session_cache`,
  `_next_row_id`, `_is_initialized`, `_result_set` and `table_metadata`.

The model does not look inside the pending-row entity or the other collaborators. They
come in through a `Collaborators<E>` record that is fixed when the session is built:

- `E` is the pending-row entity.
- `newRowUpdate` is the `RowUpdate` constructor.
- `setCellValue` and `getEditRow` are the entity's own operations.
- `extend` is `EditTableMetadata.extend`.
- `quoteIdentifier` is the driver's identifier quoting.

`set_cell_value` changes its entry in place. The model writes this as a function that
returns the entry's new value together with the call's result, and the session stores
the new value under the same row id.

Behaviour the model keeps exactly as the code has it:

- With no positive `limit_results`, the code never assigns `limit_clause`, but it reads it
  anyway and raises `UnboundLocalError`. The model returns `Err(UnboundLimitClause)`. One
  might expect the clause to be omitted; the code raises instead. `limit_clause` is a local
  variable, so no value carries over from an earlier call.
- A positive limit renders as `FROM <table>  LIMIT n`, with two spaces.
- `_is_initialized` is set but never read. `UpdateCell` and `GetRows` therefore
  *require* an initialized session. They do not return a state error.
- `get_rows` hands every cached row's entry the first window row (`subset.rows[0]`), not
  that row's own original values. `GetRows` states this.
- Without table metadata (the completion handler runs before `initialize` stored any),
  the handler adopts the result set, sets the row id and the flag, and only then fails
  in `extend`. This is a partial adoption.
- A query with no batches fails at `batches[0]` (`NoBatch`) before any field changes.

## Model

| member | source | states |
|---|---|---|
| `EditSession.ValidateQueryForSession` | pgsqltoolsservice/edit_data/data_editor_session.py:79-82 | validation passes exactly when the query's status is EXECUTED; otherwise it fails with "Execution not completed" |
| `EditSession.AdoptedResultSet` | pgsqltoolsservice/edit_data/data_editor_session.py:50-57 | with no query, the result is failure with the state's message; a query that has not executed gives ExecutionNotCompleted; adoption succeeds iff the query is present, executed and has a batch, and then adopts batch 0's result set |
| `EditSession.CompletionOutcome` | pgsqltoolsservice/edit_data/data_editor_session.py:50-65 | on_success is chosen iff adoption succeeds and the session has metadata; every adoption error goes to on_failure unchanged; without a query, on_failure carries the execution state's own message; a query that has not executed gives on_failure with the message 'Execution not completed'; without metadata, the result is on_failure(NoTableMetadata) |
| `EditSession.DataEditorSession.OnQueryExecutionComplete` | pgsqltoolsservice/edit_data/data_editor_session.py:50-65 | reports CompletionOutcome; on a failure before adoption, no field changes; on adoption, `resultSet` is batch 0's result set, `nextRowId` is its row count, the session is initialized, and the metadata is extended with the result set's columns |
| `EditSession.DataEditorSession.constructor` | pgsqltoolsservice/edit_data/data_editor_session.py:28-35 | a new session has an empty cache, no row id, no result set and no metadata, and is not initialized |
| `EditSession.DataEditorSession.Initialize` | pgsqltoolsservice/edit_data/data_editor_session.py:37-48 | stores the factory's metadata, then yields the builder's query text or its error |
| `EditSession.ApplyCellUpdate` | pgsqltoolsservice/edit_data/data_editor_session.py:67-77 | afterwards the row id is a key and the key set grows by that id alone; all other entries are unchanged; the entry and the returned result are exactly `set_cell_value` applied to the existing or newly created entry |
| `EditSession.DataEditorSession.UpdateCell` | pgsqltoolsservice/edit_data/data_editor_session.py:67-77 | requires an initialized session; the new cache and the result are ApplyCellUpdate of the old cache, so only `rowId`'s entry changes and the delegate's result is returned untranslated |
| `EditSession.SecondUpdateReusesEntry` | pgsqltoolsservice/edit_data/data_editor_session.py:69-75 | a second edit of the same row adds no key and applies `set_cell_value` to the entry the first edit left |
| `EditSession.CacheGrowsByEditedRows` | pgsqltoolsservice/edit_data/data_editor_session.py:69-73 | after any sequence of edits, the keys are the old keys plus the edited row ids; entries of rows not edited are unchanged |
| `EditSession.Window` | pgsqltoolsservice/edit_data/data_editor_session.py:98-101 | the window is empty when start is not below the row count or the end is not above start; otherwise it is the rows from start up to the end clamped to the row count, with window row i being result row start + i |
| `EditSession.CleanEditRow` | pgsqltoolsservice/edit_data/data_editor_session.py:110 | an uncached row keeps its id and has one cell per original cell, each with the original display value and not dirty |
| `EditSession.DataEditorSession.GetRows` | pgsqltoolsservice/edit_data/data_editor_session.py:97-113 | the result is empty when start is not below the row count; there is one row per window row; an uncached row start + i shows its original values, none dirty; a cached row comes from its entry's getEditRow given the first window row |
| `QueryBuilder.DecimalString` | pgsqltoolsservice/edit_data/data_editor_session.py:88 | `str(n)` is a nonempty string of decimal digits with no leading zero |
| `QueryBuilder.DecimalRoundTrip` | pgsqltoolsservice/edit_data/data_editor_session.py:88 | reading back the digits of `str(n)` gives n |
| `QueryBuilder.DecimalStringInjective` | pgsqltoolsservice/edit_data/data_editor_session.py:88 | distinct limits render as distinct digit strings |
| `QueryBuilder.QuotedColumns` | pgsqltoolsservice/edit_data/data_editor_session.py:85 | one quoted identifier per metadata column, in metadata order |
| `QueryBuilder.LimitClause` | pgsqltoolsservice/edit_data/data_editor_session.py:87-88 | a clause exists iff the limit is set and positive, and is then " LIMIT " followed by its digits |
| `QueryBuilder.ConstructInitializeQuery` | pgsqltoolsservice/edit_data/data_editor_session.py:84-95 | the result is text iff the limit is set and positive, otherwise the unbound-limit error; the text is SELECT, then the quoted columns joined by ", ", then FROM, the quoted table name, two spaces, LIMIT and the digits |
| `QueryBuilder.LimitRecoverable` | pgsqltoolsservice/edit_data/data_editor_session.py:87-93 | the query text ends with the limit's digits, right after the fixed prefix, and they parse back to the limit |
| `QueryBuilder.QueryDeterminesLimit` | pgsqltoolsservice/edit_data/data_editor_session.py:87-93 | for one table, equal query texts imply equal limits |
| `QueryBuilder.QueryDeterminesTable` | pgsqltoolsservice/edit_data/data_editor_session.py:90-92 | with injective quoting, equal query texts for the same columns and limit imply the same table name, so the name is one quoted identifier |
| `QueryBuilder.LimitTenQuery` | pgsqltoolsservice/edit_data/data_editor_session.py:84-95 | columns id and name of table t with limit 10 give `SELECT id, name FROM t  LIMIT 10` (each name quoted) |

## Left out

- The metadata factory (`SmoEditTableMetadataFactory.get`) needs a database connection, so `Initialize` takes its answer as a parameter. The asynchronous `query_executer` is left out too: `Initialize` returns the query text, and the completion handler is a separate call.
- The psycopg2 `sql.Identifier`, `sql.SQL` and `as_string` rendering is a foreign library. Quoting is the uninterpreted `quoteIdentifier`, and the rendered text is the plain string the format produces.
- The internals of `RowUpdate`/`RowEdit` live in `update_management`, outside this model. This covers column-index bounds, type conversion, dirty tracking and `get_edit_row`. They are uninterpreted functions, so how a pending edit marks its own cell dirty is not stated.
- `EditTableMetadata.extend` is outside this model and is an uninterpreted function. An exception raised inside it is not modelled.
- `ResultSetSubset.from_result_set` is outside this model. It is modelled as a slice whose end is clamped to `[start, row count]`.
- GetRows: start indices are natural numbers. Python's negative-index slicing is not modelled.
- GetRows: the unused `owner_uri` parameter is dropped.
- An exception raised inside the `on_success` callback would also reach `on_failure`. That is caller behaviour and is not modelled.
- Concurrency and timeouts around the executor callback are not modelled.
- Python's `None` for `_result_set` before initialization is `Option.None`. Reading it in `update_cell`/`get_rows` is excluded by the initialization precondition.
