# Verified model of the database core

The project models the parts of a SQLite-style database that decide its answers on their own, and
proves what they promise. To check the proofs: `dafny verify dfyconfig.toml`.

**The in-memory store** is one mutable object: tables, secondary indexes, row-id counters, an undo log
and a stack of savepoints. `StoreSpec` gives every operation as a function from a store to the store it
leaves, the undo records it logs and its error; `MemoryStorage` is the object itself, updated in place,
each method proved to do what the function says. `StoreInvariant` says what every reachable store
satisfies; `StoreRows`, `StoreCatalog`, `StoreColumns` and `StoreRenames` prove that each operation keeps
it and is undone exactly, each naming the condition it needs; `Transactions` lifts that to whole runs;
`StoreAlignment` gives conditions on schemas alone under which inserts need none; `StoreLimits` shows what
happens when a condition is not met. `StoreMeanings`, `CatalogMeanings` and `AddedColumns` say what each operation
comes to for a caller, in terms of cells, rows and names alone and of none of the specification's own tests.

**Index selection**: `Filters` gives the meaning of a WHERE filter, in three-valued logic and as the
executor computes it, `Comparisons` and `FilterMeanings` what that says about the cells of a row; `Expansion`
the splitting of a conjunction into branches; `IndexSelection` the summary of a filter and the choice of an
index, `PlanChoices` when one is used at all; `PlannedScans` runs the plan on the store and proves it equal
to the sequential scan; `PlanLimits` says exactly when.

**Codecs and readers**: `Jsonb`, `JsonbRoundTrip`, `JsonbRendering` and `JsonbPaths` follow section 3 of
SQLite's "The JSONB Format", and `JsonbBytes` and `JsonTexts` write its bytes and texts out; `TableBtree`,
`TableBtreeReads`, `TableBtreeScans` and `Payloads` follow sections 1.6 and 1.7 of the SQLite Database File
Format.

**CHECK expressions**: `CheckExprs`, `Schemas`, `SchemaChanges` and `Mentioned` evaluate, rename and drop,
and `CheckMeanings` says what the tests, the CHECKs of a table and the validity of a row come to; `Lexing`,
`CheckParsing`, `CheckPrinter`, `LexPrinted` and `CheckRoundTrip` print and parse, `CheckPrecedence` covers
conditions and arithmetic with as few brackets as they need, `CheckForms` and `LexOther` what is read but never
printed, and `CheckSpelling` the characters.

**Matchers and dates**: `Regexp`, `Glob`, `GlobLanguage` and `Calendar`.

## What the code does not keep

Each of these is a lemma with a concrete input or an exact condition:

- An update that changes the row id is not undone by rollback: the record does not remember the new id
  (`StoreRows.UpdateRevertsIff`).
- `add_column` lets a primary-key column come to a table with rows, which can leave rows with equal keys or ids
  the counter will run into: exactly when the new key does not suit the rows
  (`StoreColumns.AddColumnPreserves`).
- `drop_column` does not look at indexes: it fails half-way exactly when an index names the column and
  there are rows (`StoreLimits.DropColumnRightIff`).
- `create_index` on an empty table does not check that its columns exist; afterwards no insert gets in
  (`StoreLimits.CreatedOverMissing`, `StoreLimits.MissingColumnBlocksInserts`).
- An insert checks only the indexes it does not take for the primary key's own. It is taken back exactly
  when those others take the row (`StoreRows.InsertPreserves`). They need not: the primary-key constraint
  keeps the old name of a renamed column, and another column renamed onto that name makes its unique index
  look like the primary key's; a refused insert then leaves its row behind (`StoreLimits.StaleKeyNameLeaks`).
- The optimizer passes over indexes with NOCASE columns but not those with RTRIM columns, and the
  executor compares booleans with integers and values of different classes where the store does not:
  `Filters.LooseComparisons` shows two such pairs, `Filters.CompareFits` is the condition, and
  `PlanLimits.SingleComparisonIff` says it is exact; for any plan, `PlanLimits.PlanAgreesIff`.
- The executor evaluates NOT of an unknown test as true (`Filters.NotOfUnknownHolds`; exactly then, by
  `Filters.NotAgreesIff`, for filters whose BETWEENs fit). It takes two NULLs for equal in BETWEEN, and drops
  NOT BETWEEN with a NULL bound even when the other bound settles it (`Filters.BetweenNullBounds`; exactly
  then, `Filters.BetweenAgreesIff`).
- An IN list compares without the column's collation, and the equalities it is expanded into compare with it,
  so a branch can be true where the filter is false (`Expansion.CaseMisread`; exactly when,
  `Expansion.InListIff` and `Expansion.ExpandInMeans`). The rows are filtered again, so no answer changes.
- In a CHECK, NULL IN () is unknown, where the OR of no equalities is false (`CheckMeanings.InListMeansIff`;
  the executor says false, `FilterMeanings.InMeans`).
- A partial index on `x = NULL` is judged usable for `x IS NULL` (`PlanLimits.NullPredicateUsable`); an
  equality with NULL is the only way to lose rows (`PlanLimits.PartialIndexComplete`).
- The B-tree lookup compares row ids as unsigned numbers, so negative ids, which the format orders
  first, can be missed (`TableBtreeReads.NegativeRowMissed`): exactly when a key on the way has the other
  sign (`TableBtreeReads.LookupSignsIff`).
- Most column names that are keywords, one of CAST, CURRENT_DATE, CURRENT_TIME and CURRENT_TIMESTAMP, or quoted in
  the schema are printed bare and do not parse back
  (`CheckRoundTrip.KeywordNameLost`, `CheckRoundTrip.SpecialNameLost`; exactly which one-word names do,
  `CheckRoundTrip.NameReadsBackIff`).
- `civil_from_days` is wrong before 0000-03-01 (`Calendar.BeforeTheFirstEra`) on all days but the last of
  each era (`Calendar.RightDateIff`).

## Model

| member | source | states |
|---|---|---|
| StoreInvariant.AddRowOk | src/storage/memory.rs:302-325 | adding a validated row under a fresh id never fails, and afterwards every index bucket holds exactly the ids whose rows project to its key |
| StoreInvariant.RemoveRowOk | src/storage/memory.rs:354-377 | removing a stored row never fails, leaves every index equal to what the remaining rows project to, and keeps no empty bucket |
| StoreInvariant.IndexesDetermined | src/storage/memory.rs:302-398 | rows and index definitions determine index contents: two coherent index sets over the same rows are equal |
| StoreInvariant.AddableIff | src/storage/memory.rs:302-352 | the test the store makes before filing a row means that the index's columns exist and no stored row has the key |
| StoreInvariant.FilesAll | src/storage/memory.rs:302-325 | filing a row index by index, in any order, gets through if and only if every index takes it, files it in all of them, and leaves an index that refuses as it was |
| StoreInvariant.SkippedAddable | src/storage/memory.rs:327-352 | with an aligned primary key and existing columns, an index that the unique pre-check passes over refuses no row that passes the primary-key check |
| StoreInvariant.BackingKeyIsPrimaryKey | src/storage/memory.rs:193-203 | equal keys in an index that backs the primary key mean equal primary keys, so skipping it loses no duplicate |
| StoreCatalog.FillIsInvert | src/storage/memory.rs:379-398 | the fill loop, run from any point of the ascending walk over the rows, ends with exactly the inverse image of the key projection |
| StoreCatalog.BuildIsInvert | src/storage/memory.rs:1079-1143 | building a new index succeeds if and only if no two rows share a unique NULL-free key, and then holds exactly the projected keys |
| StoreColumns.RebuildAll | src/storage/memory.rs:379-398 | rebuilding gets through when the columns of every index exist or there are no rows, and replaces the contents of exactly the listed indexes |
| StoreRows.PlacementFresh | src/storage/memory.rs:834-886 | an insert never lands on an existing row id: the id equals the integer primary key, or lies at the table's counter |
| StoreRows.InsertChecksSuffice | src/storage/memory.rs:816-887 | once an insert has passed its checks, filing it in the indexes succeeds if and only if the indexes the pre-check passes over take the row |
| StoreRows.InsertPreserves | src/storage/memory.rs:816-887 | an insert leaves a right store, and its records take it back, if and only if no index that the pre-check passes over refuses a row that passes the checks; then it adds exactly the caller's row with its id filled in, or changes counters only |
| StoreRows.AlignedInsertClear | src/storage/memory.rs:193-203 | with an aligned primary key and existing index columns that condition always holds |
| StoreRows.DeletePreserves | src/storage/memory.rs:922-946 | a delete keeps the invariant, removes that row only, never fails, and its undo record takes it back exactly |
| StoreRows.UpdateTargetFree | src/storage/memory.rs:977-1030 | the id an update moves a row to is free whenever the primary-key check passes, which makes the duplicate-row-id branch unreachable |
| StoreRows.UpdateChecksSuffice | src/storage/memory.rs:948-1075 | once an update has passed its checks, which `StoreMeanings.UpdateSucceedsIff` writes out, unfiling the old row and filing the new one cannot fail |
| StoreRows.UpdateKeepsStoreOk | src/storage/memory.rs:948-1075 | an update keeps the store invariant whether or not the row id changes; when it changes the store at all is `StoreMeanings.UpdateSucceedsIff` |
| StoreRows.UpdateReverts | src/storage/memory.rs:474-491 | the undo record of an update that keeps its row id restores rows and indexes exactly |
| StoreRows.UpdateRevertsIff | src/storage/memory.rs:474-491 | an update that changes the store is taken back by its undo record if and only if it keeps the row id |
| StoreMeanings.KeyOfMeans | src/storage/memory.rs:228-242 | at each place the key of a row holds the cell under the column named there |
| StoreMeanings.RefusalIff | src/storage/memory.rs:327-352 | a right index refuses a row if and only if a column of it is missing, or it is unique and a stored row has the same key with no NULL in it |
| StoreMeanings.CreateIndexMeans | src/storage/memory.rs:1079-1143 | a new index over existing columns is refused if and only if it is unique and two rows share a key without NULL; otherwise it files every row under its key and nothing else changes |
| StoreMeanings.InsertSucceedsIff | src/storage/memory.rs:816-887 | an insert succeeds if and only if table, width and id are right and the row suits its columns, keeps the CHECKs unless they are off, differs from every other row in the primary key, and shares no NULL-free key of a unique index |
| StoreMeanings.UpdateSucceedsIff | src/storage/memory.rs:948-1075 | an update of a stored row succeeds if and only if nothing would change or the new row is acceptable beside the others, in the same terms; then the new row stands under its id, the old one is gone, and every other row is as it was |
| StoreMeanings.InsertCounters | src/storage/memory.rs:282-290 | an insert that takes its id from the counter moves it on by one, accepted or not; one that brings its id leaves it |
| StoreMeanings.UpdateCounters | src/storage/memory.rs:1002-1067 | an update that changes the store leaves the counter past the new id and never takes it back |
| StoreCatalog.CreateSchemaPreserves | src/storage/memory.rs:497-516 | creating a table is always undone exactly, and keeps the store right if and only if it is refused or its column names are distinct |
| StoreCatalog.DropSchemaPreserves | src/storage/memory.rs:518-537 | dropping a table keeps the invariant and its snapshot brings back schema, rows, indexes and counter |
| StoreCatalog.ReplaceSchemaPreserves | src/storage/memory.rs:539-558 | replacing a schema is always undone exactly, and keeps the store right when the layout is the same or the table has no rows |
| StoreCatalog.CreateIndexPreserves | src/storage/memory.rs:1079-1143 | creating an index keeps the store right and is undone exactly, whatever its columns; it succeeds if and only if the table exists, the name is free, there are columns, and, when there are rows, the columns exist and no two rows share a unique NULL-free key |
| StoreCatalog.DropIndexPreserves | src/storage/memory.rs:1145-1167 | dropping an index is undone with its contents |
| StoreColumns.AddColumnPreserves | src/storage/memory.rs:633-686 | adding a column is always undone exactly; it rewrites every row and keeps every index right although none is rebuilt; the store stays right if and only if it is refused, the column is no primary key, or the new key suits the rows |
| StoreColumns.DropColumnPreserves | src/storage/memory.rs:764-800 | dropping a column that no index names, or from a table without rows, goes through and keeps the store right |
| StoreColumns.DropColumnReverts | src/storage/memory.rs:764-800 | whatever becomes of dropping a column, half-done failures included, its record brings the table back exactly |
| StoreRenames.RenameColumnPreserves | src/storage/memory.rs:688-762 | renaming a column, whatever the names, changes schema, index definitions and the foreign keys of other tables together; the store stays right and the whole is undone in reverse order |
| StoreRenames.RenameSchemaPreserves | src/storage/memory.rs:560-631 | renaming a table moves its four entries and retargets the foreign keys of all referring tables; the invariant holds and the whole is undone |
| StoreRenames.UnwindReferrers | src/storage/memory.rs:560-631 | replaying the snapshots of a chain of rewritten referring tables backwards restores each of them, whatever the order |
| CatalogMeanings.CreateTableMeans | src/storage/memory.rs:497-516 | a created table is there with its schema, without rows, and nothing else changes; a name in use is refused |
| CatalogMeanings.DropTableMeans | src/storage/memory.rs:518-537 | a dropped table is gone with its rows, indexes and counter, and every other table is as it was |
| CatalogMeanings.ReplaceTableMeans | src/storage/memory.rs:539-558 | replacing puts the new schema in place and touches nothing else |
| CatalogMeanings.DropIndexMeans | src/storage/memory.rs:1145-1167 | a dropped index is gone and every other index is as it was |
| AddedColumns.AddColumnSucceedsIff | src/storage/memory.rs:633-686 | a column is added if and only if the table is there, the name is new, the metadata stays valid, and every row can be extended: the default, converted in a STRICT table, suits the column and the longer row keeps every CHECK, switched off or not |
| CatalogMeanings.AddColumnMeans | src/storage/memory.rs:633-686 | after adding a column every row has its old cells and the default behind them, and other tables are untouched |
| CatalogMeanings.DropColumnMeans | src/storage/memory.rs:764-800 | after a drop every row has lost the cell of that column and no other |
| CatalogMeanings.RenameTableMeans | src/storage/memory.rs:560-631 | after renaming a table its rows, indexes and counter stand under the new name and nothing under the old one; every foreign key that named the old table names the new one, and nothing else in any schema differs |
| CatalogMeanings.RenameColumnMeans | src/storage/memory.rs:688-762 | after renaming a column the rows are untouched; columns, index definitions, unique constraints and foreign keys on both sides carry the new name in place of the old, in every table, and but for CHECKs nothing else in any schema differs |
| CatalogMeanings.BeginMeans | src/storage/memory.rs:1342-1359 | begin starts an empty log and no savepoints under a new id, and is refused while a transaction is active |
| CatalogMeanings.CommitAndMarkMean | src/storage/memory.rs:1361-1408 | commit leaves no transaction and the same contents; a savepoint remembers the length of the log |
| CatalogMeanings.ReleaseMeans | src/storage/memory.rs:1447-1461 | after a release no savepoint at or past the latest one of that name is live, and the earlier ones are |
| CatalogMeanings.ForeignCallRefused | src/storage/memory.rs:244-253 | a call under an id that is not the active one is refused and changes nothing |
| Transactions.SafeMutation | src/storage/memory.rs:497-1167 | every one of the twelve mutations keeps a right store right under its condition, and every one but a row-moving update and an unclear insert is exactly reversible whatever its arguments |
| Transactions.UnwindCongruent | src/storage/memory.rs:400-495 | replaying a log depends on row-id counters nowhere: from states equal up to counters it ends in states equal up to counters |
| Transactions.SafeStep | src/storage/memory.rs:1342-1461 | each call, transaction control included, keeps: coherent store, undo log leading back to the begin state, each savepoint's suffix leading back to its state, marks ascending within the log |
| Transactions.ReachableOk | src/storage/memory.rs:302-398 | after any safe run of calls from the empty store, every index is coherent, unique keys are unique, primary keys distinct and row ids collision-free |
| Transactions.SteadyRunOk | src/storage/memory.rs:948-1075 | the same for runs whose updates move rows, as long as no transaction that moved one is rolled back |
| Transactions.RollbackRestores | src/storage/memory.rs:1368-1388 | rollback never fails and restores schemas, rows and indexes of the begin state; only row-id counters may differ |
| Transactions.RollbackToRestores | src/storage/memory.rs:1410-1445 | rollback to a savepoint restores the state at the latest live savepoint of that name, keeps that savepoint and drops the later ones; an unknown name changes nothing |
| Transactions.TransactionUndone | src/storage/memory.rs:1342-1388 | begin, any run of calls with savepoints, releases and partial rollbacks, then rollback: the begin state |
| Transactions.SavepointUndone | src/storage/memory.rs:1390-1445 | savepoint, any run of calls that leaves it live, then rollback to it: the state at the savepoint |
| StoreAlignment.AlignmentKept | src/storage/memory.rs:497-1167 | every mutation keeps primary keys aligned and index columns existing, given conditions on schemas and index definitions alone |
| StoreAlignment.AlignedRunSafe | src/storage/memory.rs:1342-1461 | a run under those conditions is safe whatever rows it inserts, rollbacks and savepoints included |
| StoreAlignment.AlignedInsertsNeverRefused | src/storage/memory.rs:816-887 | in every store such a run reaches, filing a row that passed its checks cannot fail |
| StoreLimits.DropColumnRightIff | src/storage/memory.rs:764-800 | a drop that the schema's guards accept fails half-way, with an index over the column empty and the store wrong, if and only if an index names the column and the table has rows |
| StoreLimits.CreatedOverMissing | src/storage/memory.rs:1079-1143 | an index over a missing column is only ever created on a table without rows, into which no row can be inserted afterwards |
| StoreLimits.MissingColumnBlocksInserts | src/storage/memory.rs:816-887 | with an index over a missing column every insert into the table fails, changing only counters unless the pre-check passes over that index |
| StoreLimits.StaleKeyNameLeaks | src/storage/memory.rs:688-762 | from a concrete right store, renaming a column onto a stale primary-key name gives a right store on which one insert is not clear: it stores its row, fails, logs nothing, and leaves a wrong store |
| MemoryStorages.MemoryStorage.RollbackTransaction | src/storage/memory.rs:1368-1388 | the in-place replay loop succeeds and leaves exactly the begin state up to counters |
| MemoryStorages.MemoryStorage.RollbackToSavepoint | src/storage/memory.rs:1410-1445 | the in-place cut of log and savepoints and the replay leave the savepoint's state; the object stays valid |
| MemoryStorages.MemoryStorage.Replay | src/storage/memory.rs:1368-1388 | the loop over undo records, last first, is the unwinding of the log |
| MemoryStorages.MemoryStorage.BeginTransaction | src/storage/memory.rs:1342-1359 | begin takes a new transaction id, fails when one is active, and leaves the contents alone |
| MemoryStorages.MemoryStorage.CommitTransaction | src/storage/memory.rs:1361-1366 | commit ends the transaction and leaves the contents alone; a foreign transaction id is refused |
| MemoryStorages.MemoryStorage.CreateSavepoint | src/storage/memory.rs:1390-1408 | a savepoint records the length of the undo log and nothing else changes |
| MemoryStorages.MemoryStorage.ReleaseSavepoint | src/storage/memory.rs:1447-1461 | release drops the latest savepoint of the name and those after it, keeping log and contents |
| MemoryStorages.MemoryStorage.InsertInto | src/storage/memory.rs:816-887 | the in-place insert leaves the state, the log, the id and the error that the specification gives, for the iteration order it reports |
| MemoryStorages.MemoryStorage.DeleteFrom | src/storage/memory.rs:922-946 | the in-place delete leaves the state, the log and the error the specification gives |
| MemoryStorages.MemoryStorage.UpdateIn | src/storage/memory.rs:948-1075 | the in-place update leaves the state, the log and the error the specification gives, which `StoreMeanings.UpdateSucceedsIff` pins |
| MemoryStorages.MemoryStorage.RenameExistingSchema | src/storage/memory.rs:560-631 | the loop over referring tables leaves the state and the log the specification gives |
| MemoryStorages.MemoryStorage.AddColumnTo | src/storage/memory.rs:633-686 | the row-by-row extension validates every row before changing any and leaves the specified state |
| MemoryStorages.MemoryStorage.CreateIndexOn | src/storage/memory.rs:1079-1143 | the row-by-row build leaves the index the specification gives, or the store unchanged when it is refused, as `StoreMeanings.CreateIndexMeans` decides |
| MemoryStorages.MemoryStorage.Execute | src/storage/memory.rs:497-1167 | one mutation, with the orders in which it walked its maps reported, is one step of the specification, error included, and keeps the object valid |
| MemoryStorages.AddToEach | src/storage/memory.rs:302-325 | the loop over a table's indexes files the row up to the first index, in its order, that refuses, and reports that refusal; when one refuses is `StoreMeanings.RefusalIff` |
| MemoryStorages.FirstUniqueRefusal | src/storage/memory.rs:327-352 | the pre-check loop reports what the first index it does not pass over has against the row, as `StoreMeanings.RefusalIff` decides |
| MemoryStorages.RemoveFromEach | src/storage/memory.rs:354-377 | the loop over a table's indexes takes the row out of all of them, or stops at one it has no key in, which and any not yet visited it leaves as they were |
| IndexScans.LookupFinds | src/storage/memory.rs:1198-1221 | a lookup finds exactly the rows whose projected key is the given one |
| IndexScans.PrefixFinds | src/storage/memory.rs:1223-1257 | a prefix scan finds exactly the rows whose projected key starts with the prefix |
| IndexScans.RangeFinds | src/storage/memory.rs:1259-1312 | a range scan finds exactly the rows whose key starts with the prefix and continues within the bounds |
| IndexScans.InRangeMeans | src/storage/memory.rs:1259-1312 | a key is in range if and only if it is the prefix, a value within both bounds, and anything after that |
| MemoryStorages.MemoryStorage.ScanIndexRange | src/storage/memory.rs:1259-1303 | the scan loop returns, ascending, the ids the range specifies, or the error for a bad prefix |
| MemoryStorages.MemoryStorage.LookupIn | src/storage/memory.rs:1198-1221 | the lookup returns the ids of the key's bucket, ascending, or nothing |
| MemoryStorages.MemoryStorage.ScanIndexPrefix | src/storage/memory.rs:1223-1257 | the scan loop returns, ascending, the ids under keys with the prefix, or the error for one that is too long |
| Comparisons.CheckCompareMeans | src/common/types.rs:2451-2475 | in a CHECK each operator is its relation: between integers the integer order, between texts and blobs the lexicographic one, false between classes, unknown with NULL |
| Comparisons.TotalOrderMeans | src/common/types.rs:82-105 | the order of values is that of their classes, and within a class the same relation |
| Comparisons.StoreMatchesMeans | src/storage/memory.rs:1314-1340 | the store's comparison is identity for = and !=, and for ranges the relation between alike values other than blobs |
| Comparisons.ExecCompareMeans | src/sql/executor.rs:14403-14440 | the executor's comparison is the relation between alike values, booleans taken as numbers, and otherwise the order of the classes |
| Comparisons.CollatedTexts | src/sql/executor.rs:10358-10390 | under NOCASE texts compare as their lower-case forms, under RTRIM as themselves without trailing blanks |
| Comparisons.KleeneMeans | src/common/types.rs:2401-2423 | AND is the least of false, unknown and true, OR the greatest, NOT the opposite |
| Filters.ExecutorIsKleene | src/sql/executor.rs:9597-9960 | without NOT, and when every BETWEEN fits, the executor's two-valued filter keeps exactly the rows on which the filter is true in three-valued logic |
| Filters.BetweenAgreesIff | src/sql/executor.rs:9881-9897 | the executor's BETWEEN is true as three-valued logic's is if and only if no NULL value meets two NULL bounds and no NOT BETWEEN is settled by the one bound that is not NULL |
| Filters.BetweenNullBounds | src/sql/executor.rs:9881-9897 | 7 NOT BETWEEN NULL AND 5 is true but the executor drops the row, and it keeps NULL BETWEEN NULL AND NULL |
| Filters.NotOfUnknownHolds | src/sql/executor.rs:9597-9960 | with NOT it keeps rows on which the filter is unknown |
| Filters.NotAgreesIff | src/sql/executor.rs:9597-9960 | NOT of such a filter is kept as in three-valued logic if and only if the filter is not unknown on the row |
| Filters.CompareFitsIff | src/sql/executor.rs:14403-14440 | the store finds what the executor's comparison keeps if and only if the value classes fit, trailing blanks under RTRIM included |
| Filters.LooseComparisons | src/sql/executor.rs:14403-14440 | a trailing blank under RTRIM and a boolean against an integer: the executor keeps the row and the store's comparison does not |
| FilterMeanings.ComparisonMeans | src/sql/executor.rs:9597-9960 | a comparison of two columns relates the left cell to the right one, in this order, under the left column's collation or else the right one's; one with a literal relates the cell to it |
| FilterMeanings.BetweenIsTwo | src/sql/executor.rs:9881-9897 | in three-valued logic BETWEEN is at least the lower bound and at most the upper one |
| FilterMeanings.InMeans | src/sql/executor.rs:14646-14668 | IN is true when the cell equals a member, else unknown with a NULL on either side, else false; of an empty list it is false |
| FilterMeanings.NegatedFilterMeans | src/sql/executor.rs:9597-9960 | in three-valued logic a negated test is the NOT of the test |
| FilterMeanings.ConnectivesMean | src/sql/executor.rs:9597-9960 | AND is the least of its parts, OR the greatest, NOT the opposite |
| Expansion.ExpandInMeans | src/sql/optimizer.rs:352-441 | the OR of the branches has the filter's truth value on a row on which every IN list fits; on any row it is true if and only if every term is true or a list that does not fit |
| Expansion.ExpandInIs | src/sql/optimizer.rs:352-441 | on every row and under every collation the OR of the branches has the truth value of the conjunction with its lists written as ORs of equalities |
| Expansion.InListIff | src/sql/executor.rs:14646-14668 | an IN list has the truth value of the OR of its equalities if and only if it fits: a value equal under the collation comes with one equal without it |
| Expansion.BinaryListFits | src/sql/executor.rs:14646-14668 | on a column compared bytewise every list fits |
| Expansion.CaseMisread | src/sql/optimizer.rs:352-441 | on a NOCASE column holding `a`, `c IN (A, B) AND c IS NOT NULL` is false and its first branch is true |
| Expansion.ExpandInCount | src/sql/optimizer.rs:410-423 | the IN expansion yields exactly the product of the list lengths, at most 16 branches |
| Expansion.ExpandOrMeans | src/sql/optimizer.rs:443-482 | the OR of the branches of the OR expansion has the filter's truth value on every row |
| Expansion.ExpandInReaches | src/sql/optimizer.rs:352-441 | a row that makes the filter true makes one IN-expanded branch true, whatever the column's collation |
| Expansion.SplitInLoops | src/sql/optimizer.rs:425-441 | the three nested loops build the expansion over all choices in order |
| Expansion.FoldAnd | src/sql/optimizer.rs:573-578 | the loop rebuilds a list of terms as their left-leaning conjunction |
| Expansion.SplitAlongMeans | src/sql/optimizer.rs:425-441 | splitting a list of conjunctions along further choices keeps the truth value of their OR |
| IndexSelection.PredicateSummary.CollectConjunctiveTerms | src/sql/optimizer.rs:736-960 | the in-place walk leaves exactly the specified summary: first equality per column, tightest bounds, IS NOT NULL, and failure at OR, NOT and unreadable GLOB |
| IndexSelection.PredicateSummary.TightenLowerBound | src/sql/optimizer.rs:962-1019 | the in-place lower bound becomes the tighter one, strictness deciding between equal values |
| IndexSelection.BestIsBest | src/sql/optimizer.rs:580-638 | no candidate beats the chosen index by prefix length, range, uniqueness and column count |
| PlanChoices.GatherKnows | src/sql/optimizer.rs:736-960 | the walk gets through exactly the conjunctions of readable terms, and then holds the first value a column is fixed to and bounds for exactly the confined columns |
| PlanChoices.IndexUsedIff | src/sql/optimizer.rs:580-638 | a conjunction is answered from an index if and only if its terms are readable and some index, free of NOCASE and with its partial predicate implied, has a first column that a term fixes or confines |
| PlanChoices.BestMeans | src/sql/optimizer.rs:580-638 | the chosen index outranks all candidates after it and is outranked by none before it: by values looked up, then a range, then uniqueness, then fewer columns |
| PlanChoices.PrefixMeans | src/sql/optimizer.rs:580-638 | the values looked up are those of the longest leading run of fixed columns |
| PlanChoices.ConjunctionOptimized | src/sql/optimizer.rs:129-202 | a conjunction of readable terms, one of them plain, that an index serves is not scanned sequentially |
| PlanChoices.ExpandInIff | src/sql/optimizer.rs:352-441 | a conjunction is expanded along its IN lists if and only if it has two or more terms, a list of two or more values among them, and the product of the lengths is 16 at most |
| PlanChoices.ExpandOrIff | src/sql/optimizer.rs:443-482 | it is expanded along an OR if and only if it has two or more terms and exactly one of them is an OR |
| PlanChoices.InListUnion | src/sql/optimizer.rs:226-350 | an IN list on the first column of such an index becomes one scan for each value |
| PlanChoices.OrUnion | src/sql/optimizer.rs:226-350 | an OR whose alternatives all have a scan becomes the union of scans |
| PlanLimits.SeqScanMeans | src/sql/executor.rs:6166-6200 | the sequential scan delivers, ascending, exactly the rows on which the filter is true |
| PlannedScans.GatherSound | src/sql/optimizer.rs:736-960 | everything the walk collects from a filter is true of every row the filter keeps |
| PlannedScans.ScanFinds | src/sql/optimizer.rs:580-638 | the scan built for an index runs without error and returns, ascending, every row its summary describes |
| PlannedScans.UnionCovers | src/sql/optimizer.rs:226-316 | a union of scans found for a filter runs without error and misses no row the filter keeps |
| PlannedScans.OptimizedPlanAgrees | src/sql/optimizer.rs:25-79 | on every coherent store the chosen plan, index scan or union, delivers the same rows in the same order as the sequential scan, provided the comparisons fit the indexed columns |
| PlanLimits.PlanAgreesIff | src/sql/optimizer.rs:25-79 | for every filter and every set of indexes, partial and several columns wide included, the chosen plan runs, and delivers the rows of the sequential scan in the same order if and only if every row the filter keeps lies under a scan's prefix and within its bounds |
| PlanLimits.TypedPlanAgrees | src/sql/optimizer.rs:25-79 | when the literals suit the declared types of the indexed columns, that holds whatever rows the store has |
| PlanLimits.SingleComparisonIff | src/sql/optimizer.rs:580-638 | a comparison answered by an index on its column agrees with the sequential scan if and only if it fits on every row |
| PlanLimits.PartialIndexComplete | src/sql/optimizer.rs:659-734 | a partial index judged usable for a filter has its predicate true on every row the filter keeps, exactly for predicates without an equality with NULL |
| PlanLimits.NullPredicateUsable | src/sql/optimizer.rs:667-734 | the predicate `x = NULL` is judged usable for `x IS NULL` |
| PlanLimits.MergedLowerExact | src/sql/optimizer.rs:962-1019 | on values the store orders, the kept lower bound holds exactly when both bounds do |
| PlanLimits.MergedUpperExact | src/sql/optimizer.rs:978-1019 | on values the store orders, the kept upper bound holds exactly when both bounds do |
| Glob.PrefixBoundsExact | src/sql/optimizer.rs:1021-1042 | a text matches the pattern if and only if it lies between the bounds derived from it |
| Glob.ScanCharClass | src/common/types.rs:3640-3668 | the loop over a bracket class gives the verdict and the end that the matcher's specification gives, and ends on every input |
| JsonbRoundTrip.DecodeEncode | src/sql/jsonb.rs:67-106 | decoding an encoding gives back the value and consumes every byte, whichever keys were written raw |
| JsonbRoundTrip.HeaderReadsBack | src/sql/jsonb.rs:142-257 | each of the five header forms reads back as its type and payload bounds, wherever it lies |
| JsonbRendering.RenderEncode | src/sql/jsonb.rs:51-65 | an encoding renders as the value's compact JSON text |
| JsonbRendering.DecodedRenders | src/sql/jsonb.rs:168-363 | on any bytes, wherever decoding succeeds rendering succeeds and stops at the same offset |
| JsonbRendering.DecodableHasText | src/sql/jsonb.rs:51-65 | whatever decode accepts, to_json_text accepts |
| JsonbPaths.PathsInjective | src/sql/jsonb.rs:43-49 | different sequences of keys and indexes never share a path string, whatever the keys contain |
| Jsonb.EncodeValue | src/sql/jsonb.rs:67-106 | appending to a shared byte vector, nested payloads in vectors of their own, produces exactly the specified encoding |
| Jsonb.ByteBuffer.WriteElement | src/sql/jsonb.rs:142-166 | the element is appended behind what the vector held |
| Jsonb.RunDecodeAt | src/sql/jsonb.rs:168-295 | the mutually recursive decoding loops compute the specified value and end offset; they end on every input |
| Jsonb.ReadBigEndian | src/sql/jsonb.rs:248-257 | the shift-and-or loop reads the big-endian value |
| JsonbBytes.HeaderIs | src/sql/jsonb.rs:142-166 | the five header forms byte by byte: the type in the lower four bits, and in the upper four the size up to 11, or 12 to 15 in front of a size of 1, 2, 4 or 8 big-endian bytes |
| JsonbBytes.ConstantBytes | src/sql/jsonb.rs:67-80 | null is the byte 0, true 1 and false 2 |
| JsonbBytes.ScalarBytes | src/sql/jsonb.rs:67-140 | numbers are elements of type 3 or 5, texts of type 7 when nothing is escaped and 8 otherwise, raw keys of type 10 |
| JsonbBytes.HeaderRead | src/sql/jsonb.rs:213-265 | any header, the shortest for its size or not, is read as its numbers say, and is malformed if and only if it, its size or its payload reaches past the end |
| JsonbBytes.ArrayBytes | src/sql/jsonb.rs:67-140 | an array is an element of type 11 whose payload is its elements' bytes one after the other |
| JsonbBytes.ObjectBytes | src/sql/jsonb.rs:67-140 | an object is an element of type 12 whose payload is, entry by entry, the bytes of the key and of the value |
| JsonbBytes.ScalarRead | src/sql/jsonb.rs:168-211 | what each type number below 11 decodes to, and which of them are malformed |
| JsonbBytes.ScalarRendered | src/sql/jsonb.rs:297-336 | what each type number below 11 renders as |
| JsonTexts.ArrayText | src/sql/jsonb.rs:338-347 | the text of an array is its elements' texts in square brackets with a comma in front of each but the first |
| JsonTexts.ObjectText | src/sql/jsonb.rs:349-363 | the text of an object is its entries in braces, each a quoted key, a colon and the text of its value |
| JsonTexts.InsertMeans | src/sql/jsonb.rs:278-295 | an entry put into an object gives its key the new value and leaves every other entry; the keys stay in order |
| JsonTexts.PathsSpelled | src/sql/jsonb.rs:43-49 | a key path gives the key's length in UTF-8 bytes and the key, an index path the index |
| TableBtreeReads.ScanAscends | src/storage/sqlite3/btree.rs:65-86 | on a well-formed table B-tree of any height the scan succeeds and lists strictly ascending row ids |
| TableBtreeReads.LookupIff | src/storage/sqlite3/btree.rs:174-214 | a lookup never fails, finds nothing that is absent, and agrees with the scan if and only if the row is absent or every page on its way compares as the format's signed keys do |
| TableBtreeReads.LookupSignsIff | src/storage/sqlite3/btree.rs:174-214 | the lookup finds what the scan lists if and only if the row is absent or every key a signed search looks at on the way has the sign of the row id |
| TableBtreeReads.LookupMatchesScan | src/storage/sqlite3/btree.rs:174-214 | with non-negative keys, a lookup returns exactly the row the scan lists, and nothing when it lists none |
| TableBtreeReads.NegativeRowMissed | src/storage/sqlite3/btree.rs:174-214 | a two-leaf tree where row -1 is listed by the scan and missed by the lookup |
| TableBtree.ScanTablePage | src/storage/sqlite3/btree.rs:65-86 | the recursive scan pushes exactly the specified rows behind what the vector held |
| TableBtree.GetTableRow | src/storage/sqlite3/btree.rs:174-214 | the loops over cells and pivots compute the specified lookup |
| Payloads.AcceptedSizes | src/storage/sqlite3/file_header.rs:49-74 | every accepted header gives 257 to 65536 usable bytes, local limits without underflow and in order |
| Payloads.PageSizeIff | src/storage/sqlite3/file_header.rs:49-74 | a page size is accepted if and only if it is 1, for 65536, or a power of two from 512 to 32768 |
| Payloads.LocalSizeIs | src/storage/sqlite3/btree.rs:770-800 | the local part is the format's P, K or M, written out from its text: X = U-35 or (U-12)*64/255-23, M = (U-12)*32/255-23, K = M+(P-M)%(U-4) |
| Payloads.ReadChainIff | src/storage/sqlite3/pager.rs:94-155 | the chain reader returns given data if and only if the chain holds it |
| Payloads.ReadOverflowChain | src/storage/sqlite3/pager.rs:94-155 | the reader's loop computes that on every page map and ends even on cycles of links |
| Payloads.ReadPayloadIff | src/storage/sqlite3/btree.rs:770-834 | reading a payload returns given bytes if and only if they are laid out as the format says |
| Payloads.PageNumberIs | src/storage/sqlite3/pager.rs:94-155 | a chain link is the big-endian number in the first four bytes of a page |
| TableBtreeScans.ScanSucceedsIff | src/storage/sqlite3/btree.rs:65-86 | the scan of any tree succeeds if and only if every page below the root is there, is a table page and decodes |
| TableBtreeScans.ScanHoldsIff | src/storage/sqlite3/btree.rs:65-86 | a scan that succeeds lists a cell if and only if a leaf page below the root holds it |
| TableBtreeScans.LookupInTree | src/storage/sqlite3/btree.rs:174-214 | even on a tree that is not well formed, a lookup returns only rows that lie in the tree under that id |
| SchemaChanges.RenameKeepsEvaluation | src/common/types.rs:2526-2579 | renaming a column to a fresh name leaves the three-valued result of a CHECK, whatever the kinds of its tests, unchanged on every row |
| SchemaChanges.RenameColumnKeepsChecks | src/common/types.rs:1491-1534 | after renaming a column a row passes exactly the CHECKs it passed before, with the same first failure |
| SchemaChanges.RenameKeepsMetadata | src/common/types.rs:1439-1489 | the metadata of a valid schema is valid after a rename |
| SchemaChanges.DropColumnKeepsChecks | src/common/types.rs:1585-1672 | when the drop guards pass, every remaining CHECK gives the same answer on the shortened row |
| SchemaChanges.DropColumnKeepsCheckError | src/common/types.rs:1585-1672 | the shortened row fails exactly the first remaining CHECK that the full row fails, and a row that passed every CHECK still does |
| SchemaChanges.DropColumnSucceedsIff | src/common/types.rs:1585-1672 | drop_column succeeds if and only if its guards pass, generated columns included: the final re-validation cannot fail |
| SchemaChanges.MetadataValidIff | src/common/types.rs:1439-1489 | the metadata is valid if and only if every column a CHECK refers to exists, and foreign keys and unique constraints are not empty, name existing columns and pair them with as many of the other table |
| SchemaChanges.DropColumnIff | src/common/types.rs:1585-1672 | a column of a valid schema can be dropped if and only if it is not the last, is no primary key, the shortened schema is valid, and nothing else mentions it: its own constraints, another column's generation, a foreign key back to it |
| Mentioned.MentionsIff | src/common/types.rs:3856-3881 | a text mentions a name if and only if one of its words is the name, whatever the case |
| CheckMeanings.CompareTestMeans | src/common/types.rs:1872-1882 | comparing a cell with a literal is the relation between values of one class, false between classes, unknown with NULL |
| CheckMeanings.BetweenMeans | src/common/types.rs:1951-1974 | BETWEEN is `>= low AND <= high` on values of one class and unknown with NULL |
| CheckMeanings.BetweenClasses | src/common/types.rs:1951-1974 | with bounds of other classes the value lies between them when its class does |
| CheckMeanings.InListMeansIff | src/common/types.rs:1930-1950 | IN is the OR of its equalities, NULL members included, if and only if it is not asked of NULL in an empty list |
| CheckMeanings.NegatedMeans | src/common/types.rs:1872-1974 | a negated test is the Kleene NOT of the test |
| CheckMeanings.PatternsMean | src/common/types.rs:1887-1914 | GLOB and REGEXP match the value as text and are unknown of NULL |
| CheckMeanings.ExpressionMeans | src/common/types.rs:2401-2423 | AND is the least of its parts in the order false, unknown, true; OR the greatest; NOT the opposite |
| CheckMeanings.ChecksKeptIff | src/common/types.rs:1770-1803 | a row passes if and only if no CHECK of a column or of the table is false or fails on it; unknown passes |
| CheckMeanings.RowValidIff | src/common/types.rs:1674-1721 | a row is valid if and only if its width is right, NULL stands only in columns that allow it, and every other cell has its column's type |
| CheckMeanings.RowIdColumnIff | src/storage/memory.rs:205-226 | the row id is a column if and only if it is the only key column, an INTEGER not descending, and the table has row ids |
| Schemas.EditColumnReferences | src/common/types.rs:1491-1534 | the in-place edits of a rename leave exactly the renamed schema |
| CheckRoundTrip.ParseRender | src/sql/parser.rs:86-97 | parsing the text of a CHECK expression over readable column names gives the expression back: all operators, nesting, negations, lists, bounds, negative and least integers, quotes and blobs |
| CheckRoundTrip.NameReadsBackIff | src/sql/parser.rs:7740-7800 | of all one-word names exactly the readable ones survive being written bare: no keyword, and none of CAST, CURRENT_DATE, CURRENT_TIME and CURRENT_TIMESTAMP in any case |
| CheckRoundTrip.KeywordNameLost | src/repl/mod.rs:544-1071 | the CHECK of a column named `in` is printed as text that does not parse back to it |
| CheckRoundTrip.SpecialNameLost | src/sql/parser.rs:3696-3704 | so is one of a column named `cast` or `current_date`, which are no keywords |
| CheckRoundTrip.CheckParses | src/sql/parser.rs:4857-4930 | the backtracking descent reads rendered tokens as the expression's own structure up to the closing token |
| CheckRoundTrip.QueryConverts | src/sql/parser.rs:6076-6355 | the conversion of the parsed condition is the original expression |
| CheckRoundTrip.LiteralParses | src/sql/parser.rs:3629-3755 | a rendered literal parses as a scalar whose literal value is the original, the least integer through its float token |
| LexPrinted.RenderedLexes | src/repl/mod.rs:544-1071 | a rendered CHECK expression lexes as exactly its tokens |
| LexPrinted.LiteralLexes | src/repl/mod.rs:1055-1071 | a rendered literal lexes as its one or two tokens in front of any delimiter |
| LexPrinted.QuotedDoubled | src/sql/lexer.rs:346-363 | a text with its quotes doubled reads back from between quotes |
| LexOther.LineComment | src/sql/lexer.rs:384-393 | a line comment is skipped up to the end of its line or of the text |
| LexOther.BlockComment | src/sql/lexer.rs:395-405 | a block comment is skipped up to the first end mark, and one without is refused |
| LexOther.QuotedNameLexes | src/sql/lexer.rs:365-382 | a name in double quotes, backticks or square brackets is that identifier, keywords included |
| LexOther.HexLexes | src/sql/lexer.rs:407-427 | digits after 0x are read in base 16 as a 64-bit two's-complement number |
| Lexing.Lexer.LexAll | src/sql/lexer.rs:173-328 | the lexer's loop produces the specified tokens |
| Lexing.Lexer.LexQuoted | src/sql/lexer.rs:346-363 | the character loop reads up to the closing quote, doubled quotes standing for one |
| CheckParsing.Parser.ParseOrExpr | src/sql/parser.rs:4857-4864 | the loop over OR computes the specified tree and leaves the position just after it |
| CheckParsing.Parser.ParsePrimaryExpr | src/sql/parser.rs:4903-4929 | the bracketed attempt and the way back compute the specified result |
| CheckParsing.Parser.ParseBinaryExpr | src/sql/parser.rs:3545-3627 | the four operator loops compute the specified left-leaning tree |
| CheckParsing.Parser.ParseValues | src/sql/parser.rs:3371-3391 | the loop over an IN list computes the specified values |
| CheckPrecedence.SparseParses | src/sql/parser.rs:4857-4902 | a condition written with as few brackets as possible reads back as itself: NOT binds tighter than AND, AND tighter than OR, both lean to the left |
| CheckPrecedence.ArithmeticParses | src/sql/parser.rs:3545-3662 | arithmetic written with as few brackets as possible reads back as itself: signs, then * / %, then + -, then & | << >>, then || -> ->>, each level leaning to the left |
| CheckPrecedence.OpAtSign | src/sql/parser.rs:3545-3627 | each operator is read from its own sign at its own level |
| CheckSpelling.KeywordsLex | src/sql/lexer.rs:505-631 | a word that is a keyword but for its letter case lexes as that keyword |
| CheckForms.ReversedReads | src/sql/parser.rs:3501-3543 | a literal compared with a column is read as such, operands in order |
| CheckForms.ReversedMeans | src/sql/parser.rs:7026-7040 | and converts to the test of the column that says the same of every cell |
| CheckForms.NullFormsRead | src/sql/parser.rs:3263-3330 | ISNULL, NOTNULL and NOT NULL read as the NULL tests |
| CheckForms.IsFormsRead | src/sql/parser.rs:3263-3330 | IS NOT and IS DISTINCT FROM read as the opposite of IS, IS NOT DISTINCT FROM as the same |
| CheckForms.LikeReads | src/sql/parser.rs:3393-3499 | LIKE with and without ESCAPE, negated or not |
| CheckSpelling.ComparisonsSpelled | src/repl/mod.rs:544-1053 | how the six comparisons are printed |
| CheckSpelling.ConnectivesSpelled | src/repl/mod.rs:544-1053 | how AND, OR and NOT are printed, brackets around their parts |
| CheckSpelling.LiteralsSpelled | src/repl/mod.rs:1055-1071 | literals printed: NULL, true, false, -25, a blob, a text with a quote |
| CheckSpelling.SignsLex | src/sql/lexer.rs:173-328 | each of the 26 signs lexes as its own token in front of a delimiter |
| Regexp.SearchDecides | src/common/types.rs:3696-3794 | the search is true if and only if some substring, anchored where the pattern says, is in the language of the pattern's atoms and stars |
| Regexp.MatchHereDecides | src/common/types.rs:3712-3733 | matching here is true if and only if some prefix of the text is in the language |
| Regexp.MatchStarDecides | src/common/types.rs:3735-3756 | matching a star is true if and only if some run of accepted characters is followed by a match of the rest |
| Regexp.AcceptsIff | src/common/types.rs:3757-3794 | an atom accepts what it says: a dot anything, a class the characters its members cover, or the others when negated, any other character itself |
| Regexp.RunSearch | src/common/types.rs:3696-3710 | the loop over starting positions computes the search |
| Regexp.RunMatchStar | src/common/types.rs:3735-3756 | the star's loop with its recursive call computes the specification and ends |
| GlobLanguage.MatchesDecides | src/common/types.rs:3639-3694 | a text matches a GLOB pattern if and only if the pattern closes its classes and the text is in the language of its items: any text, any character, a character, or one in or outside a set of spans with both ends |
| GlobLanguage.PrefixBoundsIff | src/sql/optimizer.rs:1021-1042 | the optimizer derives bounds from a pattern if and only if its items are one or more ASCII characters, the last below 127, and then any text |
| Calendar.DateExists | src/common/types.rs:225-240 | from 0000-03-01 on every day number gives a valid Gregorian date |
| Calendar.NextDayNextDate | src/common/types.rs:225-240 | consecutive days give consecutive dates, leap days and ends of centuries included |
| Calendar.DatesInOrder | src/common/types.rs:225-240 | later days give later dates, so the conversion is injective |
| Calendar.RightDateIff | src/common/types.rs:225-240 | a day number is converted to its own Gregorian date if and only if it lies on or after 0000-03-01 or is the last day of a 400-year era |
| Calendar.EpochDate | src/common/types.rs:225-240 | day 0 is 1970-01-01 |
| Calendar.BeforeTheFirstEra | src/common/types.rs:225-240 | two and one days before 0000-03-01 both become 0000-02-29 |

## Left out

- REAL values: floating point is not modelled anywhere; a real literal keeps its text in the lexer.
- LIKE as a filter, expression indexes, scalar-expression filter terms and subqueries: the optimizer keys
  scalar terms by rendered text, which is not injective.
- Default values that read the clock: a default is a value. The values of generated columns, and their
  expressions apart from the words in them.
- STRICT conversions and lossy UTF-8 decoding are parameters (`Env`), as is the flag that switches CHECKs
  off, which stays fixed during a run.
- Overflow of the 64-bit row-id counter, and pragma fields such as the user version, which are not
  transactional.
- Error texts: an error is its kind.
- The half-done state after a failure inside taking index entries out, or inside an undo: no such failure is
  reachable on a right store, and the specification leaves the contents as they were.
- StoreCatalog.ReplaceSchemaPreserves: on a table with rows, a schema of another layout is undone, but
  nothing is said of the store in between.
- The aliasing of the store behind its shared reference cell: the object is used by one caller at a time.
- Column names in the planner that parse as expressions: an index term is a column name.
- Hints in a query that force or forbid an index.
- The executor's own GLOB matcher, which takes a leading `]` for a member of a class and cuts the text at a NUL
  character: a GLOB filter is evaluated with the matcher of CHECK expressions. Patterns with derived bounds
  have no class, so plans are not affected by the first difference.
- In JSONB, UTF-8, JSON string escaping and number parsing are functions with assumed inverses
  (`Jsonb.Faithful`), and numbers are held in canonical text.
- TableBtree.ScanTablePage: page headers, cell pointers, varints and records are what a page decodes to,
  and child links are assumed to have no cycle, on which the readers would not end.
- WITHOUT ROWID trees and index B-trees: the reader validates interior index cells without returning them,
  so no completeness is claimed.
- CheckRoundTrip.ParseRender: LIKE, IS [NOT] TRUE, IS DISTINCT FROM and the function comparisons of CHECK
  are not printed or parsed; evaluation, renaming and dropping treat them as tests of other kinds.
- Subqueries, function calls, CASE, CAST, row values and a second round of suffixes after a complete
  scalar are outside the modelled grammar; the parser model answers them with an error.
- The tie of the lexer to byte positions: offsets count characters.
- Files, the REPL loop, table printing, PRAGMA, the planner, joins, aggregation and the writers of the
  on-disk formats.
