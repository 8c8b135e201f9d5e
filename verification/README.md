# Verified model of the binlog recovery agent

The agent undoes committed MySQL transactions from an archived binlog. This project models its six
components with hard guarantees and proves those guarantees for all inputs, all runs and all interleavings.

- **Archive protocol** (`Archive.dfy`, `Collector.dfy`). Binlog files are sequences of distinct events, the
  archive is a map from file to event sequence, and every file write, network call and state write may fail at
  any time. The loop back-fills, streams, seals on rotation, saves its position, retries, and recovers rotated
  files by copying them whole. The server's history is fixed and the loop sees
  prefixes of it, as short as the server's position allows.
- **Reverse generator** (`SqlLexis.dfy`, `SqlText.dfy`, `Generator.dfy`, `Statements.dfy`, `Database.dfy`, `Undo.dfy`,
  `Flashback.dfy`, `Overlap.dfy`, `Duplicates.dfy`, `PrimaryKeys.dfy`, `SchemaCache.dfy`). The generator is a compiler from row changes to SQL text. A reader for
  the three statement forms, after sections 9.1.1, 9.1.3, 9.1.4 and 9.2 of the MySQL 8.0 Reference Manual, gives
  the text a meaning as data, and an interpreter over tables as multisets of rows gives it an effect. Both
  halves are proved: the text says what was intended, and executing it restores the tables. Which changes get their
  text, and with which warnings, is stated exactly. For transactions
  that touch the same rows, the plan restores the tables exactly when a replay on the touched keys does; so it is
  for truncated transactions, for tables with duplicate rows, and on a server that refuses duplicate primary keys.
- **Checkpointed executor** (`Executor.dfy`, `Reports.dfy`). Batched transactions with pauses, failures and resumed
  calls refine one sequential pass, and report one error for each statement the server refused. The server is any function from database and statement to outcome.
- **Scanner** (`Engine.dfy`, `ScanProperties.dfy`, `ScanFilters.dfy`, `Channel.dfy`, `Scan.dfy`). The
  event-to-transaction fold, what its filter lets through, its
  early stop, the directed second scan, the hand-over between the parse goroutine and its consumer, and the
  preview stream with its shared cache of table definitions.
- **Operations under races** (`Operation.dfy`, `ExecuteRace.dfy`, `Preview.dfy`, `StagedOrder.dfy`). Handlers with stale snapshots
  compete by compare-and-swap; the preview is staged from a stream that may repeat and reorder messages, and a
  selection is turned into stored statements.
- **Foreign-key ordering** (`TopoSort.dfy`). Kahn's algorithm with its fallback for cycles.
- **The components together** (`EndToEnd.dfy`). An undo plan run through the executor, and the flashback
  command from the scanned transactions to the restored tables.

Code that changes state step by step is a class or a method with a loop, proved equal to a specification
function; the properties are lemmas about that function, and what the function yields is also stated without
naming it: by position, by field, or on the answers of the environment. What the environment does (a write, a query, a
cancellation, a clock reading) is a parameter: the contracts hold for every behaviour of it, and say what is
achieved when it behaves. Warnings are data, not strings.

Some properties fail on some inputs. For each the exact condition is proved, with a failing case:

- Undoing one row change restores the table if and only if its WHERE clause selects no other row, or for an
  update only copies of the old one (`Undo.ReversesIff`); unique keys suffice. In a keyless table, undoing the
  insertion of a duplicate removes both rows (`Undo.DuplicateLost`).
- A whole transaction, on tables with duplicates or without, is undone if and only if the replay of its changes and
  their undo statements, on the rows the tables hold under the touched keys, ends where it began
  (`Duplicates.TransactionUndoneIff`). A transaction of inserts is undone if and only if the tables held no row
  under the keys it inserts (`Duplicates.InsertsUndoneIff`).
- Undoing several transactions in scan order restores the tables if and only if replaying the undo statements on
  the touched keys alone, from the rows the changes left there, ends with the rows the changes first found there
  (`Overlap.GroupsUndoneIff`). The replay is computed from the row changes. Transactions on different keys always
  pass; two single changes to one row pass exactly when an insert is followed by an update or the first changed
  nothing (`Overlap.PairRestoredIff`); an insert followed by a delete fails (`Flashback.ScanOrderLeavesItem`).
- The flashback command cuts a transaction at a million rows and undoes what is left without a warning
  (cmd/agent/flashback.go:100 and 140-148). The tables are restored if and only if replaying the undo statements of
  the kept changes, from the rows all changes left, ends with the rows all changes first found
  (`Overlap.TransactionsUndoneIff`); two items added, the second one cut off, leave the second one behind
  (`Flashback.TruncatedLeavesItem`).
- On a server that enforces primary keys the same plan runs without an error and restores the tables if and only if
  that replay does so without ever putting a second row under a primary key (`PrimaryKeys.CheckedUndoneIff`). One
  transaction with unique keys always does (`PrimaryKeys.ReversalsChecked`); an item deleted, inserted, and deleted
  and inserted again by a third transaction is restored without that check and refused with it
  (`PrimaryKeys.RefusedMidway`).
- A value of a type the generator does not know, such as the struct in internal/reverse/generator_test.go:273, is
  printed without escaping. It reads back if and only if its text holds no quote and no escape
  (`SqlLexis.UnescapedReadsBackIff`); two quotes read back as one (`SqlLexis.UnescapedMisread`).
- The shared cache serves every table its own definition if and only if different tables have different dotted
  names (`SchemaCache.CacheFaithfulIff`): schema `a.b` with table `c` and schema `a` with table `b.c` collide
  (`SchemaCache.DottedKeysCollide`).
- A checkpoint stays in step with the database if and only if its last save succeeded, or the batch it missed
  held only empty statements (`Executor.ConsistentIff`). Otherwise the next call commits a statement twice as
  soon as it commits a non-empty one of that batch, and only then (`Executor.MissedSaveReplaysIff`,
  `Executor.MissedSaveReplays`).
- A recovery copy that fails after the archived file was removed leaves the archive right if and only if nothing
  of that file lay before the resume position (`Collector.StepKeepsArchivedIff`, `Collector.PrefixLost`); over whole runs only the file
  the run started in can lose its prefix (`Collector.RunStaysArchived`).
- Synchronising again after a crash leaves the archived file as it is if and only if it was sealed from the
  stream or has no pending tail: a file copied whole ends in its rotate, and the tail is appended a second time
  (`Collector.ResealingIff`, `Collector.CopyAppendedTwice`).
- The back-fill starts the loop right if and only if the file list reaches the master's file, or all files before
  it while it is empty, and the server writes no event between the two readings of its position
  (`Collector.BackfillArchivesIff`, `Collector.ListTooShort`, `Collector.WrittenMeanwhile`).
- Delivering preview messages again changes nothing if and only if every statement of a shown transaction arrived
  at least once after that transaction's description (`Preview.RedeliveryIff`, `Preview.OvertakenIsLost`).

## Model

| member | source | states |
|---|---|---|
| SqlLexis.IdentRoundTrip | internal/reverse/generator.go:158-160 | a quoted identifier reads back as itself whatever backticks it holds, and the reader stops where it ends |
| SqlLexis.StringBodyRoundTrip | internal/reverse/generator.go:170-210 | an escaped string reads back as itself whatever quotes and backslashes it holds |
| SqlLexis.HexRoundTrip | internal/reverse/generator.go:170-210 | a byte string reads back byte for byte |
| SqlLexis.NumberRoundTrip | internal/reverse/generator.go:170-210 | numbers read back with their sign, whole part and fraction |
| SqlLexis.TimeRoundTrip | internal/reverse/generator.go:170-210 | a time reads back exactly to the microsecond, with only finer digits lost |
| SqlLexis.UnescapedReadsBackIff | internal/reverse/generator.go:170-210 | a value of an unknown type reads back as itself if and only if its text needs no escaping |
| SqlLexis.UnescapedMisread | internal/reverse/generator.go:206-208 | a value of an unknown type whose text is two quotes reads back as one quote |
| SqlLexis.ValueRoundTrip | internal/reverse/generator.go:170-210 | every printed value reads back as the literal it stands for, and the reader stops exactly where it ends |
| SqlLexis.StandsForItself | internal/reverse/generator.go:170-210 | a printed value reads back as itself: an integer with its value, a truth value as 1 or 0, texts and bytes whole, an instant to the microsecond, and NULL alone as NULL |
| SqlText.TableNameRoundTrip | internal/reverse/generator.go:105-156 | a qualified table name reads back as its two parts |
| SqlText.ListRoundTrip | internal/reverse/generator.go:162-168 | a separated list reads back element by element |
| Generator.ResolvePKIndices | internal/reverse/generator.go:241-252 | the loop finds, for each key column in key order, its first position, and warns for each that is missing |
| Generator.BuildWhere | internal/reverse/generator.go:257-276 | the WHERE text tests the usable key columns, or every column when none is usable, with a warning per unusable one |
| Generator.WhereColumns | internal/reverse/generator.go:257-307 | the WHERE clause only tests columns that exist, and is empty only for a table without columns |
| Generator.Generate | internal/reverse/generator.go:21-92 | the plan undoes the last change first, numbers it from 0, and fails only without a transaction id |
| Generator.UndoPlan | internal/reverse/generator.go:21-92 | every row change gets exactly one statement, empty ones included |
| Statements.WhereExactly | internal/reverse/generator.go:241-276 | the WHERE clause tests the first positions of the key columns that exist and have a value, in key order, or every column if there are none, and warns exactly of the key columns that are missing or have no value |
| Statements.StatementExactly | internal/reverse/generator.go:32-90 | a change gets its undo text exactly when its definition and columns are known, its action is, and the text fits the limit; each warning appears exactly when its cause holds |
| Statements.PlanExactly | internal/reverse/generator.go:21-92 | statement k undoes the k-th change from the end, carries the transaction's id and number k, and has the text and warnings that change calls for, under the limit asked for or 16 KiB |
| Statements.SuccessfulIff | internal/reverse/generator.go:32-90 | a statement comes out with text and without warnings if and only if the definition was fetched, images are whole, every key column has a value, and the text fits |
| Statements.PlanSuccessfulIff | internal/reverse/generator.go:21-92 | a whole plan does if and only if every change does |
| Statements.ClausesExactly | internal/reverse/generator.go:105-156 | an UPDATE assigns every column its old value, a WHERE clause compares each tested column with its new one, by IS NULL where that is NULL, and a value an image lacks is NULL |
| Generator.InsertRoundTrip | internal/reverse/generator.go:105-156 | the INSERT that undoes a delete parses to the intended columns and before-image |
| Generator.DeleteRoundTrip | internal/reverse/generator.go:105-156 | the DELETE that undoes an insert parses to the intended tests, with IS NULL for nulls |
| Generator.UpdateRoundTrip | internal/reverse/generator.go:105-156 | the UPDATE that undoes an update parses to the intended assignments and tests |
| Generator.StatementRoundTrip | internal/reverse/generator.go:105-156 | every generated statement parses back to exactly the statement intended: same table, columns, literals and NULL tests |
| Undo.WarningFreeWhereIsKey | internal/reverse/generator.go:241-276 | without warnings the WHERE clause tests the whole primary key, or every column of a keyless table |
| Undo.SelectsByKey | internal/reverse/generator.go:257-307 | the WHERE clause selects a row exactly when it agrees with the after-image on the key |
| Undo.ReversesIff | internal/reverse/generator.go:105-156 | one undo statement restores the state before its change if and only if it selects no other row (for an update, no row other than copies of the old one) |
| Undo.DuplicateLost | internal/reverse/generator.go:257-276 | in a keyless table holding one row, undoing the insertion of an equal row leaves the table empty |
| Undo.KeyedIsReversible | internal/reverse/generator.go:105-156 | unique keys after the change make that condition hold, primary-key changes included |
| Undo.ReversalsRestore | internal/reverse/generator.go:32-90 | undoing a whole transaction last change first restores the state before it |
| Undo.KeyedRunIsReversible | internal/reverse/generator.go:32-90 | unique keys in every state a transaction passes through make each of its changes reversible |
| Undo.PlanMeans | internal/reverse/generator.go:21-92 | a plan without warnings reads as the undo statements of the transaction, last change first |
| Undo.TransactionUndone | internal/reverse/generator.go:21-156 | if every statement is non-empty and without warnings, executing the plan's text after the transaction restores exactly the state before it, for every mix of inserts, deletes and updates |
| Flashback.ReversedCommutes | cmd/agent/flashback.go:140-148 | an undo statement commutes with a row change that touches none of its keys |
| Flashback.PlanPastRun | cmd/agent/flashback.go:140-148 | undoing a whole transaction commutes with later changes to other keys |
| Flashback.GroupsUndone | cmd/agent/flashback.go:140-148 | undo plans of transactions on different keys restore the first state even when concatenated in scan order |
| Flashback.TransactionsUndone | cmd/agent/flashback.go:140-148 | the text of the whole plan, executed, restores the state before all the transactions, if they touch pairwise different keys and none was truncated |
| Overlap.UndoneDescribed | internal/reverse/generator.go:105-156 | an undo statement changes only the rows under the keys its change touches, and changes them as the replay says |
| Overlap.RunDescribed | cmd/agent/flashback.go:110-139 | after a run with unique keys, the touched keys hold what the row changes say and nothing else has changed |
| Overlap.StartDescribed | cmd/agent/flashback.go:110-139 | before it they held the first before-images the row changes show |
| Overlap.GroupsUndoneIff | cmd/agent/flashback.go:140-148 | for any transactions, whatever rows they share, the plan in scan order restores the state before all of them if and only if its replay on the touched keys restores their first contents |
| Overlap.KeptUndoneIff | cmd/agent/flashback.go:140-148 | undoing some of the changes performed restores the state before all of them if and only if the replay of their undo statements, from what all changes left, ends with what all changes first found |
| Overlap.TransactionsUndoneIff | cmd/agent/flashback.go:100-148 | the same for the plan's text, printed, read back and executed, where truncated transactions keep only their first changes |
| Flashback.TruncatedLeavesItem | cmd/agent/flashback.go:100-148 | of two items added by one transaction, cut to its first change, the plan leaves the second in the table |
| Duplicates.AnyStateUndoneIff | cmd/agent/flashback.go:140-148 | from any state, unique keys or not, the plan of any groups of the changes restores it if and only if the replay on the rows under the touched keys does |
| Duplicates.TransactionUndoneIff | internal/reverse/generator.go:32-90 | so it is for one transaction undone last change first |
| Duplicates.InsertsUndoneIff | internal/reverse/generator.go:32-90 | a transaction of inserts is undone if and only if the tables held no row under the keys it inserts, in a keyless table none of the rows |
| PrimaryKeys.CheckedUndoneIff | cmd/agent/flashback.go:140-148 | with primary keys enforced the plan restores the state if and only if the replay does without crowding a primary key, and meets an error if and only if the replay crowds one |
| PrimaryKeys.TransactionsCheckedIff | cmd/agent/flashback.go:100-148 | the same for the plan's text, truncated transactions included |
| PrimaryKeys.ReversalsChecked | internal/reverse/generator.go:32-90 | undone last change first, one transaction with unique keys never meets a primary key error and is restored |
| PrimaryKeys.RefusedMidway | cmd/agent/flashback.go:140-148 | an item deleted, inserted, and deleted and inserted by a third transaction: the plan restores it where keys are not enforced and is refused where they are |
| Overlap.PairRestoredIff | cmd/agent/flashback.go:140-148 | two transactions of one change each to one row are restored exactly when an insert is followed by an update, or the first is an update that changed nothing |
| Flashback.InsertThenDeleteComesBack | cmd/agent/flashback.go:140-148 | where one transaction inserts a row and the next deletes it, the plan in scan order leaves that row behind |
| Flashback.ScanOrderLeavesItem | cmd/agent/flashback.go:140-148 | such a pair exists for every single-key table: an item added by one transaction and removed by the next is in the table after the plan, though it was not there before |
| Flashback.RunFlashback | cmd/agent/flashback.go:100-148 | the command collects every transaction in scan order, fetches each definition once, concatenates the plans, and fails exactly when the scan fails, without transactions, or with one lacking an id |
| EndToEnd.FlashbackRestoresIff | cmd/agent/flashback.go:110-148 | what the command returns for the scanned transactions, truncated or not, with definitions fetched once per dotted key, runs without an error and restores the tables, primary keys enforced, if and only if the replay does |
| EndToEnd.CampaignRestores | internal/executor/executor.go:38-199 | a plan whose text restores the tables, primary keys enforced, restores them through the executor, with no error and no statement committed twice, however the calls before the last paused or failed |
| EndToEnd.UndoSurvivesPauses | internal/executor/executor.go:38-199 | so does the generated plan of one transaction without warnings and with unique keys |
| SchemaCache.FillLoop | internal/scan/scan.go:141-167 | the lookup loop adds to the cache what each row needs and it lacks; a failed fetch adds nothing |
| SchemaCache.FillServes | internal/scan/scan.go:141-167 | with distinct dotted keys every row finds its own table's definition, whatever the cache held before |
| SchemaCache.CacheFaithfulIff | internal/scan/scan.go:141-167 | for all fetchers every row finds its own definition if and only if different tables have different dotted keys |
| SchemaCache.DottedKeysCollide | internal/scan/scan.go:141-167 | a row of schema a, table b.c that follows one of schema a.b, table c is given the latter's definition |
| SchemaCache.UndoFromLooksUp | internal/reverse/generator.go:37-60 | the generator depends on the cache only through its own rows' entries |
| Scan.TablesOfExact | internal/scan/scan.go:80-135 | a preview lists exactly the touched tables, each once |
| Scan.Scanner.CollectTables | internal/scan/scan.go:80-135 | the membership loop lists tables in order of first appearance |
| Scan.Scanner.GenerateSQL | internal/scan/scan.go:141-167 | a truncated transaction yields one warning statement and leaves the cache alone; any other yields its undo plan |
| Scan.Scanner.PreviewOne | internal/scan/scan.go:80-111 | one transaction's preview, with the shared cache grown by its own tables only |
| Scan.Scanner.Stream | internal/scan/scan.go:48-125 | the stream yields one preview per transaction in order up to the cap, 500 if none is given, and reports the scan error only if the cap was not reached |
| Scan.PreviewExactly | internal/scan/scan.go:80-167 | a preview shows the transaction's own fields, tables and row count, and its undo plan with fresh definitions, or one warning where it was truncated or has no id |
| Scan.SharedIsFresh | internal/scan/scan.go:80-111 | with distinct dotted keys every preview is the one a fresh fetch for that transaction alone would give |
| Reports.PassReports | internal/executor/executor.go:125-150 | a pass ends in the database the server's answers lead to, adds exactly one error with position, text and message for each statement that failed, in order, and adds up the rows the server counted |
| Reports.CallReports | internal/executor/executor.go:100-199 | so does one call on the statements it committed, after the errors and rows it was given |
| Reports.CampaignReports | internal/executor/executor.go:38-199 | on completion, however often interrupted, the report holds exactly one error for each statement that failed, in plan order, and the sum of all rows |
| Reports.NormalizedExactly | internal/executor/executor.go:19-36 | a plan is rejected exactly without operation id or with a negative batch size; batches are of the size given, or 50 |
| Executor.SequentialSplit | internal/executor/executor.go:100-199 | a sequential pass may be interrupted anywhere and continued from what it left |
| Executor.Executor.Run | internal/executor/executor.go:38-55 | a run starts at the first statement with a fresh checkpoint, in batches of the size given or 50, or rejects the plan and touches nothing; other operations' checkpoints stay; when nothing fails it completes the plan |
| Executor.Executor.Resume | internal/executor/executor.go:65-94 | a resumed call continues from the saved position, carrying its errors and row count; when nothing fails it completes the plan |
| Executor.Executor.ExecuteBatch | internal/executor/executor.go:125-150 | inside its transaction a batch does what the sequential pass does on its statements, unless a cancellation is seen before its last one |
| Executor.Executor.RunBatch | internal/executor/executor.go:117-186 | a batch that is not committed leaves database, checkpoint and history as they were; a committed one advances them together unless the save fails; which of these happens is decided by the failures alone |
| Executor.Executor.RunBatches | internal/executor/executor.go:110-196 | the batches commit and save a prefix of the remaining statements in order, stopping at the first that is not committed and saved, and reach the end when none fails |
| Executor.Executor.RunFromIndex | internal/executor/executor.go:100-199 | a call commits a prefix of the remaining statements in whole batches, reports and saves what it committed, is paused exactly when cancelled early, leaves other operations' checkpoints alone, and completes the plan when nothing fails |
| Executor.ConsistentIff | internal/executor/executor.go:163-186 | a call keeps checkpoint and database in step if and only if its last save succeeded or the batch it missed was empty |
| Executor.MissedSaveReplaysIff | internal/executor/executor.go:163-186 | after a failed save the next call commits a position twice if and only if it gets to commit a non-empty statement of the missed batch |
| Executor.MissedSaveReplays | internal/executor/executor.go:163-186 | such a call exists for every non-empty statement: saved late, it is committed twice |
| Executor.CampaignConsistent | internal/executor/executor.go:38-199 | they stay in step over any number of calls whose saves succeed |
| Executor.ExecutedOnce | internal/executor/executor.go:100-199 | a pass executes each non-empty statement once, in order |
| Executor.CampaignRefinesPass | internal/executor/executor.go:38-199 | one run and any number of resumed calls, with any pauses, failures and batch sizes, commit no statement twice, and on completion leave the database, errors and row count of one uninterrupted pass |
| TopoSort.BuildGraph | internal/connector/fk.go:77-100 | the tables get their in-degrees and children, counting only references between listed tables |
| TopoSort.Release | internal/connector/fk.go:108-120 | releasing a table lowers its children's in-degrees and queues exactly those that reach zero |
| TopoSort.Kahn | internal/connector/fk.go:102-121 | the rounds end with every released table after all the tables it references, and every other table still waiting for one not released |
| TopoSort.KahnCoversSortable | internal/connector/fk.go:77-121 | a table is released if and only if no ancestor of it lies on a cycle |
| TopoSort.AcyclicFullyOrdered | internal/connector/fk.go:77-133 | without cycles every result with TopoSort's contract has each table after all the tables it references |
| TopoSort.TopoSort | internal/connector/fk.go:77-133 | the result is a permutation of the input in which every table with no cycle among its ancestors comes after all its referenced tables, and the others follow in input order |
| Engine.Scanner.EmitPending | internal/binlog/engine.go:309-357 | a pending record without rows emits nothing; otherwise it becomes one transaction if it passes the filter, cut to the row limit |
| Engine.Scanner.HandleEvent | internal/binlog/engine.go:216-296 | each event changes the pending record, the table maps and the output as the fold says |
| Engine.Scanner.ParseFile | internal/binlog/engine.go:163-211 | a file yields the fold of its events up to the end position and before the first one past the time range, and says which of these, or a parse error, ended it |
| Engine.Scanner.RunParseLoop | internal/binlog/engine.go:146-159 | the files are scanned in order until one ends the scan; a parse error is reported, a stop is not |
| ScanFilters.EmittedExactly | internal/binlog/engine.go:309-357 | a pending record is emitted exactly when it has rows and passes the filter, field by field, with its own GTID, XID, schema, commit time and identity, and its rows cut and marked exactly when they exceed the limit |
| ScanFilters.ScanDelivers | internal/binlog/engine.go:413-456 | every transaction a scan returns lies in the time range, both ends included, matches the GTID set, selection and tables, and has its rows up to the limit |
| ScanFilters.ScanExactly | internal/binlog/engine.go:146-211 | a scan reads each file up to the first event past the end position or the time range; an end position closes its own file only, a passed time range ends the scan silently, and a parse error is reported exactly when it is met |
| ScanFilters.GtidTextExact | internal/binlog/engine.go:463-480 | a GTID's text is its server id in hexadecimal, grouped 8-4-4-4-12, a colon and its number; a server id that is not 16 bytes has none |
| Engine.HandleAppend | internal/binlog/engine.go:216-296 | the fold may be interrupted between any two events |
| ScanProperties.RowEventExact | internal/binlog/engine.go:360-403 | a row event of a mapped table becomes one insert or delete for each image, or one update for each pair of before- and after-image, under the table's names; any other is skipped |
| ScanProperties.GroupReadsBack | internal/binlog/engine.go:360-403 | row changes written as a row event come back as exactly themselves, table, action and images, and an update image without its partner is dropped |
| ScanProperties.RowsConserved | internal/binlog/engine.go:226-320 | without filter or truncation, emitted rows followed by pending rows are the rows of all row events of mapped tables in order, read by position, for every event sequence |
| ScanProperties.AggregationInverts | internal/binlog/engine.go:216-403 | row changes written as GTID, BEGIN, table maps, row events and commit come back one for one as transactions with exactly those changes, their GTID, XID, schema, commit time and identity, with no leak between them or through DDL |
| ScanProperties.DdlFlushes | internal/binlog/engine.go:237-273 | DDL leaves nothing pending and emits exactly the rows that were pending, none if there were none |
| ScanProperties.TimeFilterLast | internal/binlog/engine.go:413-418 | filtering by time while scanning is filtering afterwards |
| ScanProperties.StopLosesNothing | internal/binlog/engine.go:137-159 | nothing after the first event past the time range would have been emitted |
| ScanProperties.EarlyStopPreservesMeaning | internal/binlog/engine.go:137-205 | with chronological dated events, dated commits and no DDL over pending rows, the scan that stops early yields exactly the full scan filtered by time |
| ScanProperties.SameScan | internal/binlog/transaction.go:106-148 | scanning the same files at another time yields the same transactions, anonymous identities included |
| ScanProperties.RescanFindsSelection | internal/binlog/engine.go:424-436 | the directed second scan yields exactly the selected transactions of the first, in its order |
| Channel.NextIsFaithful | internal/binlog/engine.go:96-159 | in every interleaving without Close, Next returns the transactions in order, then the parse error if there was one, then end of file for ever |
| Channel.NextNeverDeadlocks | internal/binlog/engine.go:96-118 | the producer or the consumer can always take a step |
| Channel.CloseReleasesProducer | internal/binlog/engine.go:120-159 | after Close the producer can always finish, receiver or not, and every step brings it closer |
| Operation.TerminalIffStuck | internal/server/pitr/state.go:53-84 | the terminal states are exactly those no transition leaves |
| Operation.EnteredFrom | internal/server/pitr/state.go:53-84 | for every status, the statuses it can be entered from |
| Operation.ReachableIff | internal/server/pitr/handler.go:392-524 | the stored status can go through exactly the paths of valid transitions from created |
| Operation.ReadyCanFinish | internal/server/pitr/state.go:53-84 | an operation can become ready, be executed and done, and be blocked meanwhile |
| Operation.PausedCanFinish | internal/server/pitr/state.go:53-84 | a paused operation can be carried out after all, or cancelled |
| Operation.ReadyCanRescan | internal/server/pitr/state.go:53-84 | a ready operation can be scanned again for the selected transactions and then carried out, or cancelled |
| Operation.Row.UpdateIfStatus | internal/server/pitr/store.go:159-174 | the row is written exactly when the store works and the stored status is still the expected one; a store error is reported and changes nothing |
| Operation.Snapshot.TransitionTo | internal/server/pitr/handler.go:392-412 | a transition wins exactly when it is valid, stored, and the stored status is the snapshot's; otherwise snapshot and row stay, and invalid, failed and lost are told apart |
| Operation.Snapshot.FallBack | internal/server/pitr/handler.go:770-899 | a late completion event goes on from the fallback status unless the store fails; the status is stored only if the operation was still ready |
| Operation.MovesKeepSafe | internal/server/pitr/handler.go:392-524 | every move of every handler keeps the status history a valid path and terminal audits unique and true |
| Operation.RacesAreSafe | internal/server/pitr/handler.go:392-899 | over any run of any number of handlers: only valid transitions, terminal states never left, at most one terminal audit, naming the final status |
| ExecuteRace.RaceEndsTerminal | internal/server/pitr/handler.go:835-881 | in every interleaving of the late execute swap, the completion event, cancels and disconnects, once all have finished the operation is terminal and the done audit exists exactly when done won |
| ExecuteRace.RolesExactly | internal/server/pitr/handler.go:1594-1641 | which statuses each handler takes up, and where its swap leads when it wins |
| ExecuteRace.StepShrinks | internal/server/pitr/handler.go:1594-1641 | every step of every handler brings the race closer to its end |
| ExecuteRace.RunsEnd | internal/server/pitr/handler.go:1594-1641 | no run of the race is longer than the steps its handlers have left to take |
| ExecuteRace.RaceNeverStuck | internal/server/pitr/handler.go:1594-1641 | a handler that has not finished can always move |
| Archive.SkipsExactlyTheAppended | internal/archive/archive.go:331-348 | with distinct events the check skips a tail exactly when it is already there |
| Archive.Writer.Consume | internal/archive/archive.go:83-153 | at a boundary exactly the events between the leading rotates and the next one were added to the announced file's segment; the outcome is decided by the stream and the first failed write |
| Archive.Writer.Seal | internal/archive/archive.go:209-250 | a fresh segment becomes the archived file exactly when none is there and the file system works; an appended one is added at most once per call, and a failure leaves the segment |
| Archive.Writer.SealAppendVerified | internal/archive/archive.go:261-327 | the tail is appended exactly when it is not there already, verifies and can be stored; success needs the segment removed as well |
| Collector.Loop.SkipStreamPreamble | internal/collector/loop.go:544-572 | announcements of the current file and format descriptions are dropped; another file's announcement ends the file |
| Collector.Loop.StreamSegment | internal/collector/loop.go:368-425 | an uncut stream of a rotated file leaves exactly its pending tail in the segment, or finds the tail empty and advances |
| Collector.Loop.BackfillFile | internal/collector/loop.go:145-156 | a closed file is copied whole, the open one up to the master position, and an empty open one is skipped |
| Collector.Loop.RecoverSealedFile | internal/collector/loop.go:479-530 | exactly when both queries answer and the server has moved past the file, it is replaced by a whole copy and the loop advances, or lost if the copy fails; otherwise nothing changes |
| Collector.Loop.SealOrRecover | internal/collector/loop.go:420-464 | after streaming, the archive gains exactly the pending tail, or the whole file, or nothing |
| Collector.Loop.SaveStateRetry | internal/collector/loop.go:258-273 | the position is saved exactly when fewer than three attempts fail |
| Collector.Loop.SyncOnce | internal/collector/loop.go:368-464 | each synchronisation is one of six archive effects and leaves no partial; with an uncut stream and a working file system it advances past a rotated file and saves the position unless three writes fail; at the server's last file it ends as its connection does; from the old position of a sealed segment it advances and leaves the archive as it is |
| Collector.Loop.Reconcile | internal/collector/loop.go:116-136 | from an empty archive the back-fill holds every listed file whole, the open one up to the master position; it succeeds when both queries and all copies do |
| Collector.Loop.Round | internal/collector/loop.go:311-351 | one round moves on by at most one file, in memory as in the archive; after an advance the loop goes on unless the saved state cannot be read, after a failure unless cancelled, and a clean end at the server's last file ends it |
| Collector.Loop.SyncLoop | internal/collector/loop.go:291-352 | under any failures, from an archive right at the start, the archive is right at the position the loop reaches, but for a starting file lost to a failed recovery copy; from any archive the loop, unless stopped, moves on by a file for every round that goes well |
| Collector.Loop.Run | internal/collector/loop.go:95-307 | so is the archive after the whole loop from an empty directory, whenever the file list reaches the master and nothing is written between the two readings of its position; the progress is the same for every list and position |
| Collector.CutStreamConsumed | internal/collector/loop.go:368-464 | a stream cut anywhere that reaches its boundary rotate delivered the whole pending tail |
| Collector.CutStreamAppended | internal/collector/loop.go:544-572 | the same for the append form, once the preamble is dropped |
| Collector.WholeStream | internal/collector/loop.go:368-464 | the uncut stream of a rotated file holds its format description and whole pending tail before the boundary rotate, whichever form reads it |
| Collector.StepKeepsArchivedIff | internal/collector/loop.go:368-464 | every synchronisation keeps the invariant, a failed recovery copy exactly when nothing of the file lay before the resume position |
| Collector.RunStaysArchived | internal/collector/loop.go:291-464 | over every run, failed recovery copies included, each file passed is archived with every non-rotate event exactly once and in order, the current one is absent, a right prefix or complete, and later ones are absent; only the starting file can lose its prefix, and only to a recovery copy that failed |
| Collector.ResealingIff | internal/archive/archive.go:261-348 | a repeated synchronisation that advances leaves the file archived before the crash as it is if and only if it was sealed from the stream or nothing of it is pending |
| Collector.BackfillArchivesIff | internal/collector/loop.go:116-307 | for every list no longer than the master's file and every later reading of the master position, the back-fill starts the loop right if and only if the list holds that file, or all before it while it is empty, and no event was written before the later reading |
| Collector.PrefixLost | internal/collector/loop.go:479-530 | a recovery copy that fails over a back-filled prefix leaves an archive that is not right |
| Collector.CopyAppendedTwice | internal/archive/archive.go:261-348 | a file copied whole whose position was not saved gets its event a second time |
| Collector.ListTooShort | internal/collector/loop.go:116-156 | a file list that misses the file before the master's leaves a gap |
| Collector.WrittenMeanwhile | internal/collector/loop.go:116-307 | an event written between the two readings of the master position is neither back-filled nor pending for the loop |
| Preview.OpPreview.StageTxMeta | internal/server/pitr/handler.go:658-675 | a known transaction is ignored, one beyond the cap only marks the preview truncated |
| Preview.OpPreview.StageSQL | internal/server/pitr/handler.go:683-709 | a statement is staged only for a known transaction and an order not yet staged |
| Preview.StreamStagesFirst | internal/server/pitr/handler.go:658-709 | under any stream the staging stays sound, shows the first announced transactions up to the cap, and is truncated exactly when there were more |
| Preview.StagedIff | internal/server/pitr/handler.go:683-709 | a statement is staged exactly when its transaction is shown and some copy of it arrived after the description |
| StagedOrder.StagedExactly | internal/server/pitr/handler.go:683-709 | after any stream a shown transaction has staged exactly the first copy of each of its statements that arrived after its description, whole and in arrival order; any other has nothing |
| StagedOrder.SentPlanIsStaged | internal/server/pitr/handler.go:683-709 | a transaction described first and sent once is staged, and selected, exactly as sent |
| StagedOrder.ChosenInOrder | internal/server/pitr/handler.go:1330-1353 | a selection holds each transaction's statements at its id's place in the order asked for |
| StagedOrder.DescriptionsExactly | internal/server/pitr/handler.go:658-675 | the descriptions shown are the first one of each transaction, in order, up to the cap |
| Preview.RedeliveryIff | internal/server/pitr/handler.go:658-709 | delivering messages again changes nothing if and only if every statement of a shown transaction arrived at least once after its description |
| Preview.MetaFirstLosesNothing | internal/server/pitr/handler.go:677-709 | when each description arrives before its statements, every statement of a shown transaction is staged and that condition holds |
| Preview.OvertakenIsLost | internal/server/pitr/handler.go:677-709 | a statement that overtakes its description is dropped, and comes in only if sent again |
| Preview.Select | internal/server/pitr/handler.go:1279-1353 | the plan holds the staged statements in the order asked for, numbered by position and pointing at their transactions; unknown ids are all reported, and otherwise the first without SQL |
| Preview.ChosenHoldsEach | internal/server/pitr/handler.go:1330-1353 | a transaction's statements appear whole and in order as many times as its id was asked for |
| Preview.SelectedExactlyOnce | internal/server/pitr/handler.go:1330-1353 | for distinct ids that is exactly once |
| Preview.StatementStore.SaveStatements | internal/server/pitr/store.go:222-246 | saving replaces the operation's rows exactly when the indices are distinct and every write and the commit work, and otherwise reports failure and changes nothing |
| Preview.SavedPlanLoadsBack | internal/server/pitr/store.go:303-334 | a selection's plan has distinct indices and loads back in index order as exactly itself |

## Left out

- Column values: binary floats and decimals are given by the digits they print with, and other dynamic types by their default text; float formatting is not modelled.
- The source row a statement carries along for display, and the exact wording of warnings.
- Unique keys other than the primary key, collation, generated columns, triggers and other writers: values compare structurally and the database is private to the run. Foreign keys are not enforced.
- Tables of the database hold rows of literals, so two values that print alike are the same value there.
- Progress callbacks, wrap-around of the 64-bit row count, and the cause of a cancellation, which is given by the first statement at which it is seen.
- Executor.CampaignRefinesPass: assumes checkpoint saves succeed, because a failed save after a commit replays a batch; `Executor.ConsistentIff` says exactly when.
- Flashback.TransactionsUndone: covers transactions on different keys only, untruncated, because the others are decided by `Overlap.TransactionsUndoneIff`.
- ScanProperties.RescanFindsSelection: assumes a non-empty selection, because an empty one means no selection to the filter.
- TopoSort.TopoSort: assumes each table is listed once, as its caller passes them; the query that finds the foreign keys is not modelled.
- Collector.Loop.SyncLoop: promises a right archive only from one that was right at the start; restarting with a saved position over a back-filled file is not covered, and the number of rounds observed is a parameter.
- Collector.Loop.CleanupPartials: always succeeds, while the source ignores a removal that fails; that no partial survives rests on this, and so does the removal of the archived file before a recovery copy.
- Collector.Loop.Run: promises a right archive only where the back-fill starts the loop right; `Collector.BackfillArchivesIff` says exactly when.
- Binlog file names are numbers in the server's order; name validation and the rollover of lexicographic order are not modelled, nor are the bytes, checksums and flags of events, whose parsing and verification is a parameter.
- File writes are all or nothing: the clean-up of a half-written copy or append is not modelled. Retention, back-off timing and reconnection are left out.
- GTID parsing, GTID range matching and the hash behind anonymous identities are parameters. The signature cuts rows and images before hashing; here the hash is any function of commit time and rows.
- The start position of a scan and the enumeration of binlog files: a scan is given its files and their visible events.
- ExecuteRace.RaceNeverStuck: like the other claims about that race it takes every compare-and-swap to reach the store; a store error makes a handler give up its transition, and then the operation may stay open.
- Operation.RacesAreSafe: covers handlers that move the status by compare-and-swap; the whole-record update of a directed second scan and the repair of operations at start-up are not covered.
- ExecuteRace.RaceEndsTerminal: covers runs without a pause; an error event before the execute swap, and a finished second scan between its swap and its statement save, can leave an operation waiting and are not claimed.
- Preview staging keeps one operation; the map of previews, snapshots taken under the lock and the clamp of the cap are left out, as are descriptions' fields other than the id.
- HTTP, authorisation, server-sent events, WebSocket transport, TLS, tokens, encryption of settings, the SQLite schema and the web front end are thin wrappers or input and output.
