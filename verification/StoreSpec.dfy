/** The in-memory store as values: its state, and each operation as the state it leaves, the undo
    records it logs and the error it reports. The orders in which maps are walked are explicit
    parameters, and any order will do. */
module StoreSpec {
  import opened Common
  import opened Values
  import opened CheckExprs
  import opened Schemas
  import opened SchemaChanges
  import opened Ascending

  datatype IndexPredicate = NoPredicate | Unparsable | Parsed(expr: CheckExpr)

  datatype IndexMeta = IndexMeta(name: string, columns: seq<string>, unique: bool, partial: IndexPredicate)

  type Entries = map<Key, set<nat>>

  datatype IndexState = IndexState(meta: IndexMeta, entries: Entries)

  type Rows = map<nat, Row>
  type Indexes = map<string, IndexState>

  /** The four maps of the store. */
  datatype Db = Db(schemas: map<string, Schema>, rows: map<string, Rows>, indexes: map<string, Indexes>,
      counters: map<string, nat>)

  datatype UndoOp =
    | UndoDropSchema(table: string)
    | UndoDropIndex(table: string, index: string)
    | RestoreTable(schema: Schema, rows: Rows, indexes: Indexes, counter: Option<nat>)
    | RestoreIndex(table: string, index: string, state: IndexState)
    | UndoInsert(table: string, id: nat)
    | ReinsertRow(table: string, id: nat, row: Row)
    | RestoreRow(table: string, id: nat, row: Row)

  /** What an operation does: the state it leaves, the records it logs, and its error if it fails. */
  datatype Effect = Effect(db: Db, undo: seq<UndoOp>, error: Option<Error>)

  function Fail(db: Db, e: Error): Effect { Effect(db, [], Some(e)) }

  function RowsOf(db: Db, table: string): Rows { if table in db.rows then db.rows[table] else map[] }
  function IndexesOf(db: Db, table: string): Indexes { if table in db.indexes then db.indexes[table] else map[] }
  function CounterOf(db: Db, table: string): Option<nat> {
      if table in db.counters then Some(db.counters[table]) else None }

  function Put(rows: Rows, id: nat, row: Row): Rows { rows[id := row] }

  // ----- Index maintenance -------------------------------------------------

  function ValueAt(names: seq<string>, column: string, row: Row): Value {
    match Position(names, column)
    case Some(i) => if i < |row| then row[i] else Null
    case None => Null
  }

  function KeyOf(names: seq<string>, columns: seq<string>, row: Row): (k: Key)
    ensures |k| == |columns|
  {
    seq(|columns|, i requires 0 <= i < |columns| => ValueAt(names, columns[i], row))
  }

  /** `project_index_key`: the row's values in the index's columns, None when one is missing. */
  function ProjectKey(names: seq<string>, columns: seq<string>, row: Row): Option<Key> {
    if forall c | c in columns :: Lookup(names, row, c).Ok? then Some(KeyOf(names, columns, row)) else None
  }

  /** `enforces_unique_key`: uniqueness binds only keys without NULL. */
  predicate EnforcesUnique(meta: IndexMeta, key: Key) { meta.unique && Null !in key }

  predicate KeyTaken(index: IndexState, key: Key) {
    EnforcesUnique(index.meta, key) && key in index.entries && index.entries[key] != {}
  }

  function AddEntry(entries: Entries, key: Key, id: nat): Entries {
    entries[key := (if key in entries then entries[key] else {}) + {id}]
  }

  function RemoveEntry(entries: Entries, key: Key, id: nat): Entries {
    if key !in entries then entries
    else if entries[key] - {id} == {} then entries - {key}
    else entries[key := entries[key] - {id}]
  }

  /** Why an index does not take a row: a column of it is missing, or its key has to be unique and is
      taken. */
  function Refusal(names: seq<string>, index: IndexState, row: Row): Option<Error> {
    match ProjectKey(names, index.meta.columns, row)
    case None => Some(UnknownColumn)
    case Some(key) => if KeyTaken(index, key) then Some(UniqueFailed) else None
  }

  predicate Addable(names: seq<string>, index: IndexState, row: Row) { Refusal(names, index, row).None? }

  function WithRow(names: seq<string>, index: IndexState, id: nat, row: Row): IndexState {
    index.(entries := AddEntry(index.entries, KeyOf(names, index.meta.columns, row), id))
  }

  function WithoutRow(names: seq<string>, index: IndexState, id: nat, row: Row): IndexState {
    index.(entries := RemoveEntry(index.entries, KeyOf(names, index.meta.columns, row), id))
  }

  /** The order lists the names once each. */
  ghost predicate Lists(order: seq<string>, names: set<string>) {
    (forall n :: n in order <==> n in names) && NoRepeats(order)
  }

  ghost predicate NoRepeats(order: seq<string>) { forall i, j :: 0 <= i < j < |order| ==> order[i] != order[j] }

  /** `add_row_to_indexes`: index by index in the given order, stopping at the first that refuses. */
  function FileInOrder(names: seq<string>, indexes: Indexes, id: nat, row: Row, order: seq<string>): (Indexes,
      Option<Error>) {
    if order == [] then (indexes, None)
    else if order[0] !in indexes then FileInOrder(names, indexes, id, row, order[1..])
    else
      var error := Refusal(names, indexes[order[0]], row);
      if error.Some? then (indexes, error)
      else FileInOrder(names, indexes[order[0] := WithRow(names, indexes[order[0]], id, row)], id, row, order[1..])
  }

  /** Its outcome when no index refuses; None when one does. */
  function AddRow(names: seq<string>, indexes: Indexes, id: nat, row: Row): Option<Indexes> {
    if forall n | n in indexes :: Addable(names, indexes[n], row)
    then Some(map n | n in indexes :: WithRow(names, indexes[n], id, row))
    else None
  }

  /** `remove_row_from_indexes`; None when a key cannot be projected. */
  function RemoveRow(names: seq<string>, indexes: Indexes, id: nat, row: Row): Option<Indexes> {
    if forall n | n in indexes :: ProjectKey(names, indexes[n].meta.columns, row).Some?
    then Some(map n | n in indexes :: WithoutRow(names, indexes[n], id, row))
    else None
  }

  /** The row-by-row fill of one index in ascending row-id order, and whether it got through. */
  function FillEntries(names: seq<string>, columns: seq<string>, rows: Rows, ids: seq<nat>, entries: Entries): (Entries,
      bool)
    requires forall id :: id in ids ==> id in rows
  {
    if ids == [] then (entries, true)
    else match ProjectKey(names, columns, rows[ids[0]])
      case None => (entries, false)
      case Some(key) => FillEntries(names, columns, rows, ids[1..], AddEntry(entries, key, ids[0]))
  }

  /** `rebuild_indexes_for_schema` over the indexes in the given order; it stops at the first failure. */
  function RebuildIndexes(names: seq<string>, rows: Rows, indexes: Indexes, order: seq<string>): (Indexes, bool) {
    if order == [] then (indexes, true)
    else if order[0] !in indexes then RebuildIndexes(names, rows, indexes, order[1..])
    else
      var index := indexes[order[0]];
      var (entries, ok) := FillEntries(names, index.meta.columns, rows, Sorted(rows.Keys), map[]);
      var indexes' := indexes[order[0] := index.(entries := entries)];
      if ok then RebuildIndexes(names, rows, indexes', order[1..]) else (indexes', false)
  }

  predicate StartsWith(s: string, prefix: string) { prefix <= s }

  /** `is_primary_key_backing_index`. */
  predicate BacksPrimaryKey(schema: Schema, meta: IndexMeta, table: string) {
    schema.primaryKeyConstraint.Some?
    && StartsWith(meta.name, "sqlite_autoindex_" + table + "_")
    && schema.primaryKeyConstraint.value == meta.columns
  }

  /** `validate_unique_index_constraints`: primary-key backing indexes are skipped. */
  predicate UniqueKeysFree(schema: Schema, table: string, indexes: Indexes, row: Row) {
    forall n | n in indexes && !BacksPrimaryKey(schema, indexes[n].meta, table) ::
        Addable(Names(schema), indexes[n], row)
  }

  /** Its error: what the first index in order that is not skipped has against the row. */
  function UniqueRefusal(schema: Schema, table: string, indexes: Indexes, row: Row,
      order: seq<string>): (r: Option<Error>)
    ensures r.None? <==>
      forall n :: n in order && n in indexes && !BacksPrimaryKey(schema, indexes[n].meta, table) ==>
          Addable(Names(schema), indexes[n], row)
  {
    if order == [] then None
    else
      var n := order[0];
      assert order == [n] + order[1..];
      if n in indexes && !BacksPrimaryKey(schema, indexes[n].meta, table) &&
          Refusal(Names(schema), indexes[n], row).Some?
      then Refusal(Names(schema), indexes[n], row)
      else UniqueRefusal(schema, table, indexes, row, order[1..])
  }

  // ----- Catalog operations ------------------------------------------------

  function CreateSchema(db: Db, schema: Schema): Effect {
    var t := schema.name;
    if t in db.schemas then Fail(db, TableExists)
    else
      Effect(Db(db.schemas[t := schema],
                db.rows[t := RowsOf(db, t)],
                db.indexes[t := IndexesOf(db, t)],
                db.counters[t := if t in db.counters then db.counters[t] else 1]),
             [UndoDropSchema(t)], None)
  }

  /** The record that brings a table back as it is now. */
  function Snapshot(db: Db, table: string): UndoOp
    requires table in db.schemas
  {
    RestoreTable(db.schemas[table], RowsOf(db, table), IndexesOf(db, table), CounterOf(db, table))
  }

  function Without(db: Db, table: string): Db {
    Db(db.schemas - {table}, db.rows - {table}, db.indexes - {table}, db.counters - {table})
  }

  function DropSchema(db: Db, table: string): Effect {
    if table !in db.schemas then Fail(db, UnknownTable)
    else Effect(Without(db, table), [Snapshot(db, table)], None)
  }

  function ReplaceSchema(db: Db, schema: Schema): Effect {
    if schema.name !in db.schemas then Fail(db, UnknownTable)
    else Effect(db.(schemas := db.schemas[schema.name := schema]), [Snapshot(db, schema.name)], None)
  }

  /** Tables other than `except` with a foreign key to `table`; when `column` is given, one that
      names that column of it. */
  function Referrers(db: Db, table: string, column: Option<string>, except: string): set<string> {
    set t | t in db.schemas && t != except &&
      exists f | f in AllForeignKeys(db.schemas[t]) ::
        f.refTable == table && (column.Some? ==> HasReferencedColumn(f, column.value))
  }

  /** How a schema that refers to a renamed table or column is changed. */
  datatype RefChange = TableRenamed(from: string, to: string) | ColumnRenamed(table: string, from: string, to: string)

  function ChangeRefs(schema: Schema, change: RefChange): Schema {
    match change
    case TableRenamed(a, b) => RenameRefTable(schema, a, b)
    case ColumnRenamed(t, a, b) => RenameRefColumn(schema, t, a, b)
  }

  /** The loop over affected schemas: snapshot each, then change its foreign keys. */
  function ChangeReferrers(db: Db, order: seq<string>, change: RefChange): Effect
    decreases |order|
  {
    if order == [] then Effect(db, [], None)
    else if order[0] !in db.schemas then ChangeReferrers(db, order[1..], change)
    else
      var t := order[0];
      var rest :=
          ChangeReferrers(db.(schemas := db.schemas[t := ChangeRefs(db.schemas[t], change)]), order[1..], change);
      Effect(rest.db, [Snapshot(db, t)] + rest.undo, None)
  }

  /** The table's four entries under its new name, the old ones gone. */
  function Moved(db: Db, from: string, to: string): Db
    requires from in db.schemas
  {
    var gone := Without(db, from);
    Db(gone.schemas[to := db.schemas[from].(name := to)],
       gone.rows[to := RowsOf(db, from)],
       gone.indexes[to := IndexesOf(db, from)],
       if from in db.counters then gone.counters[to := db.counters[from]] else gone.counters)
  }

  /** `rename_schema`; `order` is the iteration order over the affected schemas. */
  function RenameSchema(db: Db, from: string, to: string, order: seq<string>): Effect {
    if to in db.schemas then Fail(db, TableExists)
    else if from !in db.schemas then Fail(db, UnknownTable)
    else
      var changed := ChangeReferrers(Moved(db, from, to), order, TableRenamed(from, to));
      var db' := if to in changed.db.schemas
                 then changed.db.(schemas := changed.db.schemas[to := RenameRefTable(changed.db.schemas[to], from, to)])
                 else changed.db;
      Effect(db', [Snapshot(db, from), UndoDropSchema(to)] + changed.undo, None)
  }

  /** One existing row under an added column: extended by the default, normalised and validated. */
  function ExtendRow(env: Env, updated: Schema, row: Row, default_: Value): Result<Row> {
    var candidate := row + [default_];
    if |candidate| != |updated.columns| then Err(WrongWidth)
    else match NormalizeStrictRow(env, updated, candidate)
      case Err(e) => Err(e)
      case Ok(normal) =>
        if RowError(updated, normal).Some? then Err(RowError(updated, normal).value)
        else if CheckError(env, updated, normal).Some? then Err(CheckError(env, updated, normal).value)
        else Ok(normal)
  }

  function Extender(env: Env, updated: Schema, default_: Value): Row -> Result<Row> {
    (row: Row) => ExtendRow(env, updated, row, default_)
  }

  /** The first refusal of a row-by-row rewrite, in the order of the ids. */
  function FirstRefusal(f: Row -> Result<Row>, rows: Rows, ids: seq<nat>): Option<Error>
    requires forall id :: id in ids ==> id in rows
  {
    if ids == [] then None
    else match f(rows[ids[0]])
      case Err(e) => Some(e)
      case Ok(_) => FirstRefusal(f, rows, ids[1..])
  }

  lemma {:induction false} NoRefusal(f: Row -> Result<Row>, rows: Rows, ids: seq<nat>)
    requires forall id :: id in ids ==> id in rows
    requires FirstRefusal(f, rows, ids).None?
    ensures forall id :: id in ids ==> f(rows[id]).Ok?
  {
    if ids != [] {
      assert forall id :: id in ids ==> id == ids[0] || id in ids[1..];
      NoRefusal(f, rows, ids[1..]);
    }
  }

  /** Every row rewritten. */
  function RewriteAll(f: Row -> Result<Row>, rows: Rows): Rows
    requires forall id :: id in rows ==> f(rows[id]).Ok?
  {
    map id | id in rows :: f(rows[id]).value
  }

  function AddColumn(env: Env, db: Db, table: string, column: ColumnDef): Effect {
    if table !in db.schemas then Fail(db, UnknownTable)
    else
      var schema := db.schemas[table];
      if HasColumn(schema, column.name) then Fail(db, ColumnExists)
      else
        var updated := schema.(columns := schema.columns + [column]);
        var rows := RowsOf(db, table);
        if !ValidMetadata(updated) then Fail(db, BadMetadata)
        else
          var f := Extender(env, updated, column.defaultValue);
          var error := FirstRefusal(f, rows, Sorted(rows.Keys));
          if error.Some? then Fail(db, error.value)
          else
            NoRefusal(f, rows, Sorted(rows.Keys));
            Effect(db.(schemas := db.schemas[table := updated],
                       rows := if table in db.rows then db.rows[table := RewriteAll(f, rows)] else db.rows),
                   [Snapshot(db, table)], None)
  }

  function RenameIndexColumns(indexes: Indexes, old_: string, new_: string): Indexes {
    map n | n in indexes ::
        indexes[n].(meta := indexes[n].meta.(columns := RenameNames(indexes[n].meta.columns, old_, new_)))
  }

  /** `rename_column`; the undo record is logged before the new schema is validated. */
  function RenameColumn(db: Db, table: string, old_: string, new_: string, order: seq<string>): Effect {
    if table !in db.schemas then Fail(db, UnknownTable)
    else
      var schema := db.schemas[table];
      if !HasColumn(schema, old_) then Fail(db, UnknownColumn)
      else if HasColumn(schema, new_) then Fail(db, ColumnExists)
      else
        var updated := RenamedSchema(schema, table, old_, new_);
        if !ValidMetadata(updated) then Effect(db, [Snapshot(db, table)], Some(BadMetadata))
        else
          var own := db.(schemas := db.schemas[table := updated],
                         indexes := if table in db.indexes
                                    then db.indexes[table := RenameIndexColumns(db.indexes[table], old_, new_)]
                                        else db.indexes);
          var changed := ChangeReferrers(own, order, ColumnRenamed(table, old_, new_));
          Effect(changed.db, [Snapshot(db, table)] + changed.undo, None)
  }

  function DropCell(row: Row, index: nat): Row {
    if index < |row| then RemoveAt(row, index) else row
  }

  function ShortenRows(rows: Rows, index: nat): Rows {
    map id | id in rows :: DropCell(rows[id], index)
  }

  /** `drop_column`; `order` is the order of the table's indexes. */
  function DropTableColumn(db: Db, table: string, name: string, order: seq<string>): Effect {
    if table !in db.schemas then Fail(db, UnknownTable)
    else match DropColumn(db.schemas[table], name)
      case Err(e) => Fail(db, e)
      case Ok((updated, index)) =>
        var rows' := ShortenRows(RowsOf(db, table), index);
        var shortened := db.(schemas := db.schemas[table := updated], rows := db.rows[table := rows']);
        if table !in db.indexes then Effect(shortened, [Snapshot(db, table)], None)
        else
          var (indexes', ok) := RebuildIndexes(Names(updated), rows', db.indexes[table], order);
          Effect(shortened.(indexes := db.indexes[table := indexes']), [Snapshot(db, table)],
                 if ok then None else Some(UnknownColumn))
  }

  // ----- Row operations ----------------------------------------------------

  /** The row id an insert uses, the row with its id column filled in, and the counters after. */
  datatype Placement = Placement(id: nat, row: Row, counters: map<string, nat>)

  function NextRowId(counters: map<string, nat>, table: string): (nat, map<string, nat>) {
    var next := if table in counters then counters[table] else 1;
    (next, counters[table := next + 1])
  }

  function PlaceInsert(db: Db, table: string, schema: Schema, row: Row): (Result<Placement>, map<string, nat>)
    requires |row| == |schema.columns|
  {
    var (next, bumped) := NextRowId(db.counters, table);
    match RowIdColumn(schema)
    case None => (Ok(Placement(next, row, bumped)), bumped)
    case Some(i) =>
      match row[i]
      case Integer(v) =>
          if v < 0 then (Err(BadRowId), db.counters) else (Ok(Placement(v, row, db.counters)), db.counters)
      case Null =>
        if next > MAX_I64 then (Err(BadRowId), bumped)
        else (Ok(Placement(next, row[i := Integer(next)], bumped)), bumped)
      case _ => (Err(BadRowId), db.counters)
  }

  /** The validations of `insert_row` in order: values, CHECKs, primary key, unique indexes. */
  function InsertError(env: Env, schema: Schema, table: string, rows: Rows, indexes: Indexes, row: Row,
      order: seq<string>): (r: Option<Error>)
    ensures r.None? ==> RowError(schema, row).None? && PrimaryKeyFree(schema, row, rows, None)
    ensures r.None? && Lists(order, indexes.Keys) ==> UniqueKeysFree(schema, table, indexes, row)
  {
    if RowError(schema, row).Some? then RowError(schema, row)
    else if !env.ignoreChecks && CheckError(env, schema, row).Some? then CheckError(env, schema, row)
    else if !PrimaryKeyFree(schema, row, rows, None) then Some(DuplicatePrimaryKey)
    else UniqueRefusal(schema, table, indexes, row, order)
  }

  /** Storing a validated row: into the table first, then into the indexes. A failure of the second step
      leaves the row and the entries made so far, and logs nothing. */
  function StoreInserted(db: Db, table: string, names: seq<string>, id: nat, row: Row, order: seq<string>): (Effect,
      Option<nat>) {
    var stored := db.(rows := db.rows[table := RowsOf(db, table)[id := row]]);
    if table !in db.indexes then (Effect(stored, [UndoInsert(table, id)], None), Some(id))
    else
      var (indexes', error) := FileInOrder(names, db.indexes[table], id, row, order);
      var filed := stored.(indexes := db.indexes[table := indexes']);
      if error.Some? then (Fail(filed, error.value), None) else (Effect(filed, [UndoInsert(table, id)], None), Some(id))
  }

  /** `insert_row`. A failure after the id was drawn keeps the counter advanced. `order` is the order of
      the table's indexes. */
  function InsertRow(env: Env, db: Db, table: string, row: Row, order: seq<string>): (Effect, Option<nat>) {
    if table !in db.schemas then (Fail(db, UnknownTable), None)
    else
      var schema := db.schemas[table];
      if |row| != |schema.columns| then (Fail(db, WrongWidth), None)
      else
        var (placed, counters) := PlaceInsert(db, table, schema, row);
        var drawn := db.(counters := counters);
        match placed
        case Err(e) => (Fail(drawn, e), None)
        case Ok(Placement(id, row', _)) =>
          var error := InsertError(env, schema, table, RowsOf(db, table), IndexesOf(db, table), row', order);
          if error.Some? then (Fail(drawn, error.value), None)
          else StoreInserted(drawn, table, Names(schema), id, row', order)
  }

  function DeleteRow(db: Db, table: string, id: nat): Effect {
    if id !in RowsOf(db, table) then Effect(db, [], None)
    else
      var row := db.rows[table][id];
      var removed := db.(rows := db.rows[table := db.rows[table] - {id}]);
      if table !in db.schemas then Fail(removed, UnknownTable)
      else if table !in db.indexes then Effect(removed, [ReinsertRow(table, id, row)], None)
      else match RemoveRow(Names(db.schemas[table]), db.indexes[table], id, row)
        case None => Fail(removed, UnknownColumn)
        case Some(indexes') =>
            Effect(removed.(indexes := db.indexes[table := indexes']), [ReinsertRow(table, id, row)], None)
  }

  /** The id an updated row moves to, and the row with its id column filled in. */
  function PlaceUpdate(schema: Schema, id: nat, row: Row): Result<(nat, Row)>
    requires |row| == |schema.columns|
  {
    match RowIdColumn(schema)
    case None => Ok((id, row))
    case Some(i) =>
      match row[i]
      case Integer(v) => if v < 0 then Err(BadRowId) else Ok((v, row))
      case Null => if id > MAX_I64 then Err(BadRowId) else Ok((id, row[i := Integer(id)]))
      case _ => Err(BadRowId)
  }

  function RaisedCounters(counters: map<string, nat>, table: string, id: nat): map<string, nat> {
    counters[table := if table in counters && counters[table] > id + 1 then counters[table] else id + 1]
  }

  /** No unique index holds the new key for another row. */
  predicate UniqueKeysFreeExcept(names: seq<string>, indexes: Indexes, id: nat, row: Row) {
    forall n | n in indexes ::
      var key := ProjectKey(names, indexes[n].meta.columns, row);
      key.Some? &&
          !(EnforcesUnique(indexes[n].meta, key.value) && key.value in indexes[n].entries &&
              indexes[n].entries[key.value] - {id} != {})
  }

  /** The validations of `update_row` in order. */
  function UpdateError(env: Env, schema: Schema, rows: Rows, indexes: Indexes, id: nat, row: Row): (r: Option<Error>)
    ensures r.None? ==> RowError(schema, row).None? && PrimaryKeyFree(schema, row, rows, Some(id))
    ensures r.None? ==> UniqueKeysFreeExcept(Names(schema), indexes, id, row)
  {
    if RowError(schema, row).Some? then RowError(schema, row)
    else if !env.ignoreChecks && CheckError(env, schema, row).Some? then CheckError(env, schema, row)
    else if !PrimaryKeyFree(schema, row, rows, Some(id)) then Some(DuplicatePrimaryKey)
    else if !UniqueKeysFreeExcept(Names(schema), indexes, id, row) then Some(UniqueFailed)
    else None
  }

  /** Moving a validated row: out of the indexes and its old id, then in under the target id. */
  function StoreUpdated(db: Db, table: string, names: seq<string>, id: nat, target: nat, row: Row): Effect
    requires id in RowsOf(db, table)
  {
    var rows := RowsOf(db, table);
    match RemoveRow(names, IndexesOf(db, table), id, rows[id])
    case None => Fail(db, UnknownColumn)
    case Some(cleared) =>
      var unindexed := if table in db.indexes then db.(indexes := db.indexes[table := cleared]) else db;
      if target != id && target in rows then Fail(unindexed, DuplicateRowId)
      else
        var stored := unindexed.(rows := db.rows[table := (rows - {id})[target := row]],
                                 counters := RaisedCounters(db.counters, table, target));
        match AddRow(names, cleared, target, row)
        case None => Fail(stored, UniqueFailed)
        case Some(indexes') =>
          Effect(if table in db.indexes then stored.(indexes := db.indexes[table := indexes']) else stored,
                 [RestoreRow(table, id, rows[id])], None)
  }

  /** `update_row`; a missing row is left alone, and so is a row the update would not change. */
  function UpdateRow(env: Env, db: Db, table: string, id: nat, row: Row): Effect {
    if table !in db.schemas then Fail(db, UnknownTable)
    else
      var schema := db.schemas[table];
      if |row| != |schema.columns| then Fail(db, WrongWidth)
      else if id !in RowsOf(db, table) then Effect(db, [], None)
      else match PlaceUpdate(schema, id, row)
        case Err(e) => Fail(db, e)
        case Ok((target, row')) =>
          if RowsOf(db, table)[id] == row' && target == id then Effect(db, [], None)
          else
            var error := UpdateError(env, schema, RowsOf(db, table), IndexesOf(db, table), id, row');
            if error.Some? then Fail(db, error.value)
            else StoreUpdated(db, table, Names(schema), id, target, row')
  }

  // ----- Index operations --------------------------------------------------

  /** The fill loop of `create_index`, in ascending row-id order, refusing duplicate unique keys. */
  function BuildEntries(names: seq<string>, meta: IndexMeta, rows: Rows, ids: seq<nat>,
      entries: Entries): Result<Entries>
    requires forall id :: id in ids ==> id in rows
  {
    if ids == [] then Ok(entries)
    else match ProjectKey(names, meta.columns, rows[ids[0]])
      case None => Err(UnknownColumn)
      case Some(key) =>
        if KeyTaken(IndexState(meta, entries), key) then Err(UniqueFailed)
        else BuildEntries(names, meta, rows, ids[1..], AddEntry(entries, key, ids[0]))
  }

  function CreateIndex(db: Db, table: string, meta: IndexMeta): Effect {
    if table !in db.schemas then Fail(db, UnknownTable)
    else if meta.name in IndexesOf(db, table) then Fail(db, IndexExists)
    else if meta.columns == [] then Fail(db, IndexWithoutColumns)
    else
      var rows := RowsOf(db, table);
      match BuildEntries(Names(db.schemas[table]), meta, rows, Sorted(rows.Keys), map[])
      case Err(e) => Fail(db, e)
      case Ok(entries) =>
        Effect(db.(indexes := db.indexes[table := IndexesOf(db, table)[meta.name := IndexState(meta, entries)]]),
               [UndoDropIndex(table, meta.name)], None)
  }

  function DropIndex(db: Db, table: string, index: string): Effect {
    if index !in IndexesOf(db, table) then Fail(db, UnknownIndex)
    else
      Effect(db.(indexes := db.indexes[table := db.indexes[table] - {index}]),
             [RestoreIndex(table, index, db.indexes[table][index])], None)
  }

  // ----- Undo --------------------------------------------------------------

  /** `apply_undo`; None when it reports an error. */
  function ApplyUndo(db: Db, u: UndoOp): Option<Db> {
    match u
    case UndoDropSchema(t) => Some(Without(db, t))
    case UndoDropIndex(t, i) =>
      if t in db.indexes then Some(db.(indexes := db.indexes[t := db.indexes[t] - {i}])) else Some(db)
    case RestoreTable(schema, rows, indexes, counter) =>
      var t := schema.name;
      Some(Db(db.schemas[t := schema], db.rows[t := rows], db.indexes[t := indexes],
              if counter.Some? then db.counters[t := counter.value] else db.counters))
    case RestoreIndex(t, i, state) =>
      Some(db.(indexes := db.indexes[t := IndexesOf(db, t)[i := state]]))
    case UndoInsert(t, id) => TakeBackInserted(db, t, id)
    case ReinsertRow(t, id, row) => TakeBackDeleted(db, t, id, row)
    case RestoreRow(t, id, row) => TakeBackUpdated(db, t, id, row)
  }

  function TakeBackInserted(db: Db, t: string, id: nat): Option<Db> {
    if id !in RowsOf(db, t) then Some(db)
    else if t !in db.schemas then None
    else
      var removed := db.(rows := db.rows[t := db.rows[t] - {id}]);
      if t !in db.indexes then Some(removed)
      else match RemoveRow(Names(db.schemas[t]), db.indexes[t], id, db.rows[t][id])
        case None => None
        case Some(indexes') => Some(removed.(indexes := db.indexes[t := indexes']))
  }

  function TakeBackDeleted(db: Db, t: string, id: nat, row: Row): Option<Db> {
    if t !in db.schemas then None
    else
      var stored := db.(rows := db.rows[t := RowsOf(db, t)[id := row]], counters := RaisedCounters(db.counters, t, id));
      if t !in db.indexes then Some(stored)
      else match AddRow(Names(db.schemas[t]), db.indexes[t], id, row)
        case None => None
        case Some(indexes') => Some(stored.(indexes := db.indexes[t := indexes']))
  }

  function TakeBackUpdated(db: Db, t: string, id: nat, row: Row): Option<Db> {
    if t !in db.schemas then None
    else
      var rows := RowsOf(db, t);
      var cleared :=
        if id !in rows then Some(IndexesOf(db, t))
        else RemoveRow(Names(db.schemas[t]), IndexesOf(db, t), id, rows[id]);
      var stored := db.(rows := if t in db.rows then db.rows[t := rows[id := row]] else db.rows,
                        counters := RaisedCounters(db.counters, t, id));
      if cleared.None? then None
      else if t !in db.indexes then Some(stored)
      else match AddRow(Names(db.schemas[t]), cleared.value, id, row)
        case None => None
        case Some(indexes') => Some(stored.(indexes := db.indexes[t := indexes']))
  }

  /** Replaying a log backwards: the last record first. */
  function Unwind(db: Db, log: seq<UndoOp>): Option<Db>
    decreases |log|
  {
    if log == [] then Some(db)
    else match ApplyUndo(db, log[|log| - 1])
      case None => None
      case Some(db') => Unwind(db', log[..|log| - 1])
  }
}
