# rotulus database tool — a Dafny model

rotulus keeps credential-dump records in PostgreSQL. Its database tool
(`src/database.py`) creates or drops the `rotulus` schema and six tables
in it. The tables are `usernames`, `domains`, `passwords`, `hashes_types`,
`hashes` and `records`, and later tables hold foreign keys into earlier
ones. The tool has three command-line actions: `create`, `drop` and
`reset`.

This project models that tool:

- `ddl.dfy` (module `Ddl`): tables and columns as values, and the create
  and drop statement text built from them. It also reads the table name
  back out of a column's `references rotulus.<table>(id)` clause.
- `schema.dfy` (module `Schema`): the fixed six-table list, and the proof
  that every foreign key it declares points to an earlier table.
- `connection.dfy` (module `Connections`): the database connection as a
  class that logs what the tool does with it. Each statement sent is
  logged with whether it succeeded; commit, rollback and close are logged
  too.
  - Whether the k-th statement on a connection succeeds is decided by an
    oracle, a function `nat -> bool` fixed when the connection is opened.
    Every proof therefore covers every pattern of success and failure.
  - `Server` bundles two things: whether a connection can be opened at
    all (the configuration file is readable and the server accepts), and
    the oracle for that connection.
- `database.dfy` (module `Database`): the statement loops and actions.
  - `CreateTables` and `DropTables` are imperative loops. They send one
    statement per table in list order and return early at the first
    failure.
  - `CreateQuery` is the inner loop that accumulates one create statement
    column by column. It uses a counter to put `", "` after every column
    but the last.
  - `SetupDatabase` and `RemoveTables` are the effect sequences on the
    connection. `ParseCli` is the three-way action dispatch.
  - Each method is proved against a specification function:
    `RunStatements` (fail-fast execution), `Setup`, `Remove` and
    `Dispatch`. The lemmas state what those functions promise.

A column keeps its properties text in two parts: the type and constraint
clause, and the referenced table, if any. `Properties` rebuilds the
source's text exactly, which is `<clause> references rotulus.<table>(id)`
when there is a foreign key. `ColumnReference` proves that parsing that
text gives back the referenced table, and `OnlyOneReference` proves
that the text holds no other `references rotulus.` clause. So the
foreign-key lemma speaks about every clause in each column's properties
text.

`create` rolls back only when the schema statement succeeded and a table
statement then failed. When the schema statement fails, the connection is
closed without a rollback. `drop` is the mirror image: it rolls back only
when every table drop succeeded and the schema drop then failed. So
`create` closes without a rollback when the schema statement fails
(`src/database.py:177`), and `drop` closes without a rollback when a
table drop fails (`src/database.py:191`). The model follows the code in
this.

## Model

| member | source | states |
|---|---|---|
| Ddl.JoinCons | src/database.py:147-151 | Read left to right, the accumulated column list is the first clause, then `", "`, then the rest; a single column has no separator |
| Ddl.JoinIsFirstThenPrefixed | src/database.py:147-151 | The column list is the first clause followed by every later clause with its own `", "` in front, so there is exactly one separator between neighbours and none after the last |
| Ddl.FindReference | src/database.py:57 | Finds the first position at or after `from` where a `references rotulus.` clause starts, and returns nothing exactly when no such position exists |
| Ddl.NameBeforeParen | src/database.py:57 | The result is the longest prefix of the text that contains no `(`, and the text continues with `(` after it if anything follows |
| Ddl.ReferenceNeedsDot | src/database.py:57 | A properties text that holds a foreign-key clause contains a `.` |
| Ddl.ReferenceAfterType | src/database.py:67 | A dot-free type clause followed by `references rotulus.<t>(id)` reads back as a reference to `t` |
| Ddl.ColumnReference | src/database.py:56-77 | For a well-formed column, the table named in its properties text is exactly the table it references, or none when it has no foreign key |
| Ddl.OnlyOneReference | src/database.py:57 | A well-formed column's properties text has a `references rotulus.` clause at a position exactly when the column has a foreign key and the position is right after its clause and a space |
| Ddl.ReferencesFromKeys | src/database.py:7-80 | If every column is well formed and every foreign key names an earlier table, then every `references` clause in each column's properties text, at whatever position, names an earlier table |
| Schema.TablesWellFormed | src/database.py:7-80 | Every column of the six tables has a dot-free clause and a referenced name free of dots and parentheses |
| Schema.TablesKeysPointBack | src/database.py:48-79 | `hashes.hash_type_id` points to `hashes_types`; `records` points to `usernames`, `domains`, `passwords` and `hashes`, all declared earlier |
| Schema.TablesReferenceEarlier | src/database.py:7-80 | Every `references rotulus.X(id)` clause, at any position in any column's properties text, names a table declared earlier in the list, so creating the tables in list order never refers to a table not yet created |
| Schema.Tables | src/database.py:7-80 | The six tables in declared order, each column with its name and its properties text split into clause and referenced table |
| Ddl.DropStatement | src/database.py:161 | The drop statement of one table: `drop table rotulus.<name> cascade;` |
| Connections.Connection.Execute | src/database.py:114-121 | Sending a statement reports the oracle's answer for that position instead of raising, and logs the statement with its outcome |
| Connections.Connection.Commit | src/database.py:172 | Logs a commit and sends nothing |
| Connections.Connection.Rollback | src/database.py:176 | Logs a rollback and sends nothing |
| Connections.Connection.Close | src/database.py:124-126 | Logs one close and sends nothing |
| Connections.Connect | src/database.py:96-111 | Returns no connection exactly when the configuration or the server is unavailable; otherwise returns a new connection with nothing sent on it |
| Database.RunStatementsStopsAtFirstFailure | src/database.py:143-155 | Runs statements in order, each with its oracle outcome. The run succeeds exactly when all succeed, and then every statement was sent; a failed run ends with its first failing statement, after all earlier ones succeeded |
| Database.RunOnlyExecutes | src/database.py:153-154 | The statement loops only send statements; they never commit, roll back or close |
| Database.CreateSchema | src/database.py:129-132 | Sends `create schema rotulus;` once and returns its outcome |
| Database.DropSchema | src/database.py:135-138 | Sends `drop schema rotulus;` once and returns its outcome |
| Database.CreateQuery | src/database.py:144-152 | Builds exactly `create unlogged table rotulus.<name>( `, then the column clauses in declared order with `", "` between them, then `);` |
| Database.CreateTables | src/database.py:141-155 | Sends the six create statements in list order and stops after the first failed one; it returns true exactly when all of them succeeded |
| Database.DropTables | src/database.py:158-164 | Sends `drop table rotulus.<name> cascade;` for each table in list order and stops after the first failed one; it returns true exactly when all of them succeeded |
| Database.SetupDatabase | src/database.py:167-178 | The `create` action's events on its connection and its result are those of `Setup`; there is no connection exactly when one could not be opened |
| Database.RemoveTables | src/database.py:181-192 | The `drop` action's events on its connection and its result are those of `Remove`; there is no connection exactly when one could not be opened |
| Database.SetupCommitsIffAllSucceed | src/database.py:167-178 | `create` returns true exactly when it connected, the schema statement succeeded and all six table statements succeeded; it commits exactly then |
| Database.SetupRollsBackIffTablesFail | src/database.py:170-177 | `create` rolls back exactly when the schema statement succeeded and a table statement failed; a failed schema statement is followed only by the close |
| Database.SetupClosesOnce | src/database.py:168-178 | Once connected, `create` closes exactly once, as its last act, and never both commits and rolls back; without a connection it sends nothing and fails |
| Database.RemoveCommitsIffAllSucceed | src/database.py:181-192 | `drop` returns true exactly when it connected, all six table drops succeeded and the schema drop succeeded; it commits exactly then |
| Database.RemoveRollsBackIffSchemaFails | src/database.py:184-191 | `drop` rolls back exactly when every table drop succeeded and the schema drop failed; after a failed table drop it neither commits nor rolls back |
| Database.RemoveClosesOnce | src/database.py:182-192 | Once connected, `drop` closes exactly once, as its last act, and never both commits and rolls back; without a connection it sends nothing and fails |
| Database.ResetIgnoresRemoval | src/database.py:206-208 | In the specification of `reset`, the `create` step's session does not depend on the server the `drop` step met; `ParseCli` carries this to the connections |
| Database.ParseCli | src/database.py:202-208 | Each action opens the connections its dispatch lists, in order: `create` one, `drop` one, `reset` a drop then a create; each attempt yields a connection exactly when its server is reachable, each connection is new and `reset`'s two are distinct, and each connection's events are those that action specifies; `reset`'s second attempt is made whatever the first returned |

## Left out

- Reading the YAML configuration (`get_db_conf`) and the driver call in `db_connect`: both are file and network I/O. They are reduced to the `reachable` flag of `Server`.
- What PostgreSQL does with each statement: duplicate-schema errors, cascade semantics, the aborted state of a transaction after a failed statement, and the real schema. This is foreign behaviour, so the outcome of each statement comes from the oracle. In particular the model does not say that statements after a failure inside one transaction would also fail.
- Cursor objects: `execute_query` and `close_communication` open a fresh cursor each time. Cursors hold no state the tool reads, so a statement is one `Executed` event and closing is one `Close` event.
- The `print` logging in every function, and argparse option parsing and its error exit: output and library code. Only the dispatch on the three actions is modelled.
- Database.CreateQuery: the exact text of each of the six create statements is not stated as a literal. Its contract is the general statement shape, which `CreateStatement` defines for any table.
- The properties text of a column as one opaque string: the model holds it as a clause plus an optional referenced table, so that the foreign-key check can rely on the split. `Properties` rebuilds the source's text from the two parts.
- Connections.Connection.Commit: assumed not to raise. In the source, `connection.commit()` (`src/database.py:172`, `186`) is outside any `try`, so a driver error there would skip the close and end the program.
- Connections.Connection.Rollback: assumed not to raise. In the source, `connection.rollback()` (`src/database.py:176`, `190`) is outside any `try`.
- Connections.Connection.Close: assumed not to raise. In the source, `close_communication` (`src/database.py:124-126`) is outside any `try`. Because of these three assumptions, `SetupClosesOnce`, `RemoveClosesOnce`, `ResetIgnoresRemoval` and `ParseCli` hold only when commit, rollback and close succeed. In particular, an error raised by `remove_tables`'s commit or close would stop `reset` before its `create` step (`src/database.py:207-208`).
