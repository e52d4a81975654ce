# MySQL test-data provisioner, core model

The provisioner reads a MySQL schema file and a scenario file. It creates the tables the
database lacks, fills the scenario's tables with random rows (foreign keys drawn from
parent rows inserted earlier in the same run), records the inserted primary keys in a run
log, lists the run logs, and rolls a run back by deleting exactly the keys it recorded.
This project models the core of `mysql-test-data-provisioner.py` and proves properties
of it:

- **DdlBlocks.** The splitter cuts the schema text into `CREATE TABLE` blocks. The loop
  is a method proved equal to a declarative definition, `Blocks`.
- **TableParser.** The block parser reads the table name, the columns and the primary
  key. It is a method proved equal to a fold (`Scan`) over classified lines.
- **SchemaCreator.** Table-name extraction, and the replay of `CREATE TABLE` statements
  for missing tables.
- **Scenarios.** The mapping from a parsed scenario.json document to scenario tables.
- **SqlText.** The `%s` placeholder lists of the INSERT and DELETE statements.
- **Provisioning.** Row building. The insertion loop, which inserts every row in one
  transaction.
- **RunCatalog.** The catalogue of run logs, and its stable descending sort.
- **Rollback.** The rollback, which deletes in chunks of 100 inside one transaction.
- **AppLog.** The bounded message log, and the number check of the selection menu.

The database is the class `Database.Server`. It keeps, per table:

- the committed key set;
- the pending key set seen by the open transaction;
- the next AUTO_INCREMENT value, which InnoDB does not give back on rollback.

It also keeps two ghost journals: every INSERT it accepted, with its table, columns,
values and key, and every DELETE it accepted, with its table, key column and keys. Each
statement must carry as many `%s` markers as it has parameters, as the MySQL driver
demands.

Whether the server accepts a statement is a nondeterministic choice. The clock and the
random generator become parameters or nondeterministic choices (`:|`). File contents
arrive already read: a missing file is `None`, an unreadable JSON file is a `RunFile`
without content. Python's `str.strip`/`split` whitespace is the `isspace` set,
`str.upper` is ASCII-only, and string comparison is code-point order (`Text.LexLess`).

What the code does, as the lemmas show:

- A table may end up with two columns marked primary (`TwoPrimaryColumns`).
- A `PRIMARY KEY` line may name a column that was never declared
  (`KeyNeedNotBeDeclared`).
- The parser strips spaces and `(` from both ends of a bare table name. The creator
  strips `;` as well. The two agree on backquoted names. On a bare name they differ
  exactly when the parser's name begins or ends with `;`, which the creator removes
  together with any spaces or `(` beyond it (`NamesAgree`).

## Model

| member | source | states |
|---|---|---|
| DdlBlocks.SplitCreateTableBlocks | mysql-test-data-provisioner.py:241-263 | The blocks the line loop emits (including the unterminated block flushed at the end) are exactly `Blocks(lines)`, the declarative cut: each block runs from a CREATE TABLE line to the first line ending in `;` or up to the next CREATE TABLE line |
| DdlBlocks.BlocksAreWellFormed | mysql-test-data-provisioner.py:248-258 | Every block starts with a CREATE TABLE line, has no other CREATE TABLE line, and no line before its last one ends the statement |
| DdlBlocks.BlockCloses | mysql-test-data-provisioner.py:248-261 | The first block is a prefix of the lines; it ends at a `;` line, just before the next CREATE TABLE line, or at the end of the input |
| DdlBlocks.LeadingLinesDropped | mysql-test-data-provisioner.py:249-256 | Lines before the first CREATE TABLE line never appear in any block |
| DdlBlocks.OneBlockPerCreateLine | mysql-test-data-provisioner.py:248-263 | There are exactly as many blocks as CREATE TABLE lines |
| TableParser.ParseTableBlock | mysql-test-data-provisioner.py:265-334 | The parse of a block equals `ParseBlock`: None exactly when the block has no non-blank line or its header yields no non-empty name, otherwise a table with that name whose columns and key come from the body up to the first `)` line |
| TableParser.HeaderNameForms | mysql-test-data-provisioner.py:272-285 | With a backquote, the name is the text between the first backquote and the next (or the line's end); without one, a name exists exactly when the header has at least three words, and it is the third word with spaces and `(` trimmed from both ends |
| TableParser.KeyLineIsNotColumnLine | mysql-test-data-provisioner.py:298-310 | A PRIMARY KEY line is never read as a column definition |
| TableParser.ColumnsOfBody | mysql-test-data-provisioner.py:293-332 | The columns are the column lines in order, each with the name, type, NULL/DEFAULT flags of its line, and marked primary when inline-marked or named by a later key constraint |
| TableParser.PrimaryKeyOrigin | mysql-test-data-provisioner.py:298-332 | The key is unset exactly when no line can set it; when set it was named by a constraint or is the name of an inline-marked column |
| TableParser.LastConstraintWins | mysql-test-data-provisioner.py:298-305 | The last PRIMARY KEY constraint that yields a non-empty backquoted name decides the key, whatever columns precede or follow it |
| TableParser.FirstInlineKeyWins | mysql-test-data-provisioner.py:316-331 | Without a named constraint, the first inline-marked column decides the key, provided no earlier column is inline-marked and its name is not empty |
| TableParser.KeyNeedNotBeDeclared | mysql-test-data-provisioner.py:298-305 | A constraint may set a key that no column declares |
| TableParser.TwoPrimaryColumns | mysql-test-data-provisioner.py:316-328 | Two inline-marked columns are both kept, both marked primary |
| TableParser.SchemaLastWins | mysql-test-data-provisioner.py:218-225 | A name is in the schema exactly when some block parses to a table of that name, and the entry is the table of the last such block |
| TableParser.Parse | mysql-test-data-provisioner.py:213-227 | The schema built by the loop equals the collection of the parsed blocks of `Blocks(lines)` |
| SchemaCreator.NamesAgree | mysql-test-data-provisioner.py:461-479 | For a block the splitter returns, the name extracted from its joined statement text is the header name of its first non-blank line with `" (;"` trimmed, and the parser's own name when the header has a backquote |
| SchemaCreator.CreateMissingTables | mysql-test-data-provisioner.py:417-457 | Every statement with a name gets one label. `already_exists` is given exactly when the table existed at the start, and such tables keep their rows. `created` is given only to a new, empty table. Otherwise the label starts with `error: `, and every table created is labelled |
| SchemaCreator.LabelTable | mysql-test-data-provisioner.py:437-455 | One statement's step: the label is added and the labelling invariant is kept whether the statement succeeds or fails |
| Scenarios.Load | mysql-test-data-provisioner.py:362-373 | One scenario table per "tables" entry, in document order, with the count read by `int()` (0 when absent) and the relations (empty when absent or null); an error exactly when some count is not a number, a null count included (`int(None)` raises) |
| Scenarios.TextCountReads | mysql-test-data-provisioner.py:366 | A count written as a decimal string reads as that number |
| Provisioning.BuildRowValues | mysql-test-data-provisioner.py:576-626 | Succeeds exactly when every non-primary relation column's relation has exactly one `.`; the row then names every non-primary column in order, each value admissible (a recorded parent key, NULL when the parent has none, else a value of the type's bucket) |
| Provisioning.ColumnValue | mysql-test-data-provisioner.py:593-621 | One column's value is admissible for its relation or type, and fails only on an unsplittable relation |
| Provisioning.RandomValue | mysql-test-data-provisioner.py:604-618 | INT types get 1..10000, CHAR/TEXT 12 letters or digits, DATETIME/TIMESTAMP a `%Y-%m-%d %H:%M:%S` string, other DATE/TIME a `%Y-%m-%d` string, anything else 8 letters or digits |
| Provisioning.RandomString | mysql-test-data-provisioner.py:85-86 | n characters, each an ASCII letter or digit |
| SqlText.Placeholders | mysql-test-data-provisioner.py:547 | `", ".join(["%s"] * n)` is the first 4n - 2 characters of the repeating `%s, `, and empty for n = 0 |
| SqlText.PlaceholderCount | mysql-test-data-provisioner.py:547 | A list of n placeholders has exactly n `%` markers, so the driver binds exactly n parameters to it |
| Provisioning.InsertRow | mysql-test-data-provisioner.py:546-553 | One INSERT: on success the journal gains exactly one statement for the table, with the key the server assigned, and its columns and values fit the table on the keys recorded so far |
| Provisioning.GenerateAndInsert | mysql-test-data-provisioner.py:511-573 | On success, the log lists the eligible tables (positive count, in the schema, with a primary key) in scenario order, each with `count` consecutive fresh keys, and the database holds exactly those rows more. On failure nothing is committed. The INSERTs of the run are those `RunRows` describes: per eligible table in order, one per key, each fitting its table on the keys recorded before it |
| Provisioning.FillTable | mysql-test-data-provisioner.py:541-555 | One table's inner loop: `count` rows inserted with consecutive AUTO_INCREMENT keys from the table's counter, all recorded in that order. The journal gains one INSERT per key, in order, the m-th built on the earlier tables' keys and this table's first m keys |
| Provisioning.RunRowsFollowLedger | mysql-test-data-provisioner.py:543-553 | The INSERTs of a run, read as (table, key) pairs, are exactly the entries of the run log flattened in order: one INSERT per logged key |
| Provisioning.PlannedFrom | mysql-test-data-provisioner.py:533-543 | Every log entry comes from an eligible scenario table |
| Provisioning.PlannedCovers | mysql-test-data-provisioner.py:533-543 | Every eligible scenario table has its log entry |
| Provisioning.PlannedDistinct | mysql-test-data-provisioner.py:533-543 | Each table appears in the log once |
| Provisioning.PlannedKeysFresh | mysql-test-data-provisioner.py:549-551 | The keys a run records for a table are disjoint from the rows it held before |
| RunCatalog.ListRuns | mysql-test-data-provisioner.py:662-698 | No work directory gives no runs; otherwise the runs are the readable `run_*.json` files of its sub-directories, sorted by `SortRuns` |
| RunCatalog.CollectedFromRunLogs | mysql-test-data-provisioner.py:672-694 | Every listed run comes from a readable `run_*.json` file in a sub-directory of the work directory |
| RunCatalog.RunLogsCollected | mysql-test-data-provisioner.py:672-694 | Conversely, every readable `run_*.json` file in a sub-directory of the work directory is listed |
| RunCatalog.SortRunsSorted | mysql-test-data-provisioner.py:697 | The list is in descending run_id order |
| RunCatalog.SortRunsPermutes | mysql-test-data-provisioner.py:697 | Sorting neither loses nor adds runs |
| RunCatalog.SortRunsStable | mysql-test-data-provisioner.py:697 | Runs with equal run_id keep their listing order (Python's sort is stable under reverse=True) |
| Rollback.RollbackRun | mysql-test-data-provisioner.py:700-744 | A missing log gives the "not found" message and changes nothing. Otherwise the outcome is one of two. On completion, every planned entry's keys are deleted and the done message is returned. On an error, the error message is returned and the committed rows are unchanged. On completion the DELETEs issued are exactly `Statements(DeletePlan(log))`: table by table in plan order, one per batch of that table's keys |
| Rollback.DeleteKeys | mysql-test-data-provisioner.py:727-731 | Deleting a table's keys in chunks removes exactly those keys from the pending rows, by exactly the DELETEs `Batches` lists, in order |
| Rollback.BatchesCover | mysql-test-data-provisioner.py:727-731 | Each DELETE of a table names that table and its key column and holds 1 to 100 keys; together they hold the table's keys in logged order |
| Rollback.DeletePlanReversed | mysql-test-data-provisioner.py:716-726 | The tables are deleted in reverse log order: the plan is the reversed log, keeping the entries that are deleted |
| Rollback.ChunksCover | mysql-test-data-provisioner.py:728 | The chunks, concatenated, are the key list |
| Rollback.ChunkSizes | mysql-test-data-provisioner.py:728 | Every chunk holds 1..100 keys, and all but the last exactly 100 |
| Rollback.DeletePlan | mysql-test-data-provisioner.py:716-726 | The entries deleted are exactly the log entries whose table is in the schema, has a primary key and has keys |
| Rollback.RollbackUndoesRun | mysql-test-data-provisioner.py:700-744 | Rolling back the log a run of generate_and_insert (lines 511-573) writes restores every table to the rows it had before the run |
| Rollback.RemovedOnlyRecorded | mysql-test-data-provisioner.py:716-731 | A rollback removes only recorded keys, and repeating it removes nothing more |
| Rollback.MessagesDiffer | mysql-test-data-provisioner.py:701-744 | The missing-log, error and completion messages are all distinct, and only the error message has the error prefix |
| AppLog.AppState.AddLog | mysql-test-data-provisioner.py:823-827 | The log is the newest 100 of all stamped messages added so far |
| AppLog.NewestSnoc | mysql-test-data-provisioner.py:825-827 | Trimming after each append equals trimming the whole history |
| AppLog.SelectionIndex | mysql-test-data-provisioner.py:1326-1341 | An index is returned exactly when the stripped input reads as an integer in 1..count; it is that integer minus one |
| AppLog.SelectShownNumber | mysql-test-data-provisioner.py:1333-1341 | Typing item k's shown number k+1 selects item k |
| AppLog.ZeroCancels | mysql-test-data-provisioner.py:1326-1341 | Typing 0, or unreadable input, cancels |

## Left out

- `str.splitlines` is not modelled. The schema file arrives as its sequence of lines, and a block's statement text is its lines joined with `\n`.
- Unicode case mapping and non-ASCII digits are left out: `upper` and `int` are modelled on ASCII.
- File and JSON I/O are left out. `os.path.exists`, `open` and `json.load` become optional inputs. A malformed schema or scenario file, which raises in the source, is not modelled.
- JSON parsing of scenario.json is not modelled. The "tables" entries arrive as name/value pairs, and a count is an int, a bool, a string or another value. `int()` of a float is treated as a failure.
- `_save_run_log`, `ensure_work_dir` and the run-log fields' JSON encoding are not modelled; they are file output.
- The schema parser's `get_create_statements` and `parse` read the file themselves; the model takes the lines as a parameter.
- The progress callbacks and `total_count` are left out: they only report progress.
- The connection handling (`connect`, `close`, the cursor, the double `close` in rollback's error path) is left out: it is I/O.
- The SQL text is modelled only by its placeholder list; the quoted table and column names around it are not built. `Database.Server` checks the `%s` count against the parameters, and whether it otherwise accepts a statement is a nondeterministic choice.
- CreateMissingTables: assumes the server creates the table under the name `_extract_table_name` returns. For headers like `CREATE TABLE IF NOT EXISTS t (`, `CREATE TABLE t(id INT);` or ``CREATE TABLE `db`.`t` (`` the extracted name ("IF", "t(id", "db") is not the table the server creates; such headers are not modelled.
- `cursor.lastrowid` is modelled as the table's AUTO_INCREMENT counter, which holds when the key is auto-incremented; a key that is not auto-incremented is not modelled.
- The run_id and created_at timestamps are parameters, because the clock is not modelled.
- `list_runs`: the inner `os.listdir` of a directory never fails in this model. A run log whose fields are not strings is not modelled.
- `rollback_run` takes the log's `inserted_rows` as a sequence of distinct table entries in file order. A log whose table names repeat cannot arise from JSON objects.
- The lock file, the curses interface, `MySQLDumpManager` and `main` are outside the core: terminal, process and file handling.
- In `_show_selection_menu`, the reading of the typed bytes is a parameter (`None` when reading failed). Only the number check is modelled.
- DdlBlocks states its lemmas for any pair of line tests (`opens`, `closes`). `Blocks` instantiates them with the splitter's own tests.
