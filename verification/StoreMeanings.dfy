/** What the row and index operations of the store mean to a caller: which rows they accept, in terms of
    cells and stored rows alone, and what the store holds afterwards. */
module StoreMeanings {
  import opened Common
  import opened Values
  import opened CheckExprs
  import opened Schemas
  import opened CheckMeanings
  import opened Ascending
  import opened StoreSpec
  import opened StoreInvariant
  import opened StoreRows
  import opened StoreCatalog

  // ----- Keys ----------------------------------------------------------------

  /** The key of a row holds, at each place, the cell under the column named there. */
  lemma KeyOfMeans(names: seq<string>, columns: seq<string>, row: Row, j: nat, i: nat)
    requires i < |names| == |row| && j < |columns| && names[i] == columns[j]
    requires forall k, l :: 0 <= k < l < |names| ==> names[k] != names[l]
    ensures KeyOf(names, columns, row)[j] == row[i]
  {
    assert names[i] in names;
    assert Position(names, columns[j]) == Some(i);
  }

  /** Another row than `except` has the same key, and there is no NULL in it. */
  ghost predicate SharedKey(names: seq<string>, columns: seq<string>, rows: Rows, row: Row, except: Option<nat>) {
    var key := KeyOf(names, columns, row);
    Null !in key && exists id :: id in rows && Some(id) != except && KeyOf(names, columns, rows[id]) == key
  }

  /** An index refuses a row exactly when it is unique and a stored row has the same key, without NULL; or
      when a column of it is missing. */
  lemma RefusalIff(names: seq<string>, index: IndexState, rows: Rows, row: Row)
    requires IndexOk(names, index, rows) && |row| == |names|
    ensures Refusal(names, index, row) ==
            if !ColumnsKnown(names, index.meta.columns) then Some(UnknownColumn)
            else if index.meta.unique && SharedKey(names, index.meta.columns, rows, row, None) then Some(UniqueFailed)
            else None
  {
    var columns := index.meta.columns;
    if ColumnsKnown(names, columns) {
      ProjectsWhenKnown(names, columns, row);
      var keys, key := KeyMap(names, columns, rows), KeyOf(names, columns, row);
      KeyTakenMeans(index, keys, key);
      assert (exists id :: id in keys && keys[id] == key) <==>
          exists id :: id in rows && Some(id) != None && KeyOf(names, columns, rows[id]) == key by {
        if id :| id in keys && keys[id] == key { assert KeyOf(names, columns, rows[id]) == key; }
        if id :| id in rows && KeyOf(names, columns, rows[id]) == key { assert keys[id] == key; }
      }
    } else {
      var c :| c in columns && c !in names;
      assert Lookup(names, row, c).Err?;
    }
  }

  /** Two rows share a key without NULL. */
  ghost predicate TwoAlike(names: seq<string>, columns: seq<string>, rows: Rows) {
    exists a, b :: a in rows && b in rows && a != b && SameKey(names, columns, rows[a], rows[b])
  }

  ghost predicate SameKey(names: seq<string>, columns: seq<string>, a: Row, b: Row) {
    KeyOf(names, columns, a) == KeyOf(names, columns, b) && Null !in KeyOf(names, columns, a)
  }

  /** One more index, which files every row under its key; nothing else in the store differs. */
  ghost predicate IndexAdded(db: Db, after: Db, table: string, meta: IndexMeta)
    requires KeysAgree(db) && table in db.schemas
  {
    var names, rows := Names(db.schemas[table]), db.rows[table];
    && table in after.indexes && meta.name in after.indexes[table]
    && var index := after.indexes[table][meta.name];
    && after == db.(indexes := db.indexes[table := db.indexes[table][meta.name := index]])
    && index.meta == meta
    && forall key, id :: Filed(index, key, id) <==> id in rows && KeyOf(names, meta.columns, rows[id]) == key
  }

  /** A new index over existing columns is refused exactly when it is unique and two rows share a key
      without NULL. Otherwise it files every row under its key, and nothing else in the store changes. */
  lemma CreateIndexMeans(db: Db, table: string, meta: IndexMeta)
    requires StoreOk(db) && table in db.schemas && meta.name !in db.indexes[table] && meta.columns != []
    requires ColumnsKnown(Names(db.schemas[table]), meta.columns)
    ensures var e, names, rows := CreateIndex(db, table, meta), Names(db.schemas[table]), db.rows[table];
            if meta.unique && TwoAlike(names, meta.columns, rows) then e.error == Some(UniqueFailed) && e.db == db
            else e.error == None && IndexAdded(db, e.db, table, meta)
  {
    var names, rows := Names(db.schemas[table]), db.rows[table];
    RowsFitHere(db, table);
    BuildAll(names, meta, rows);
    BuildErrorKind(names, meta, rows);
    UniqueKeysIff(names, meta, rows);
    CreateIndexIs(db, table, meta);
    hide TwoAlike, UniqueKeys, StoreOk, RowsFit, BuildEntries, CreateIndex, IndexAdded;
    if !(meta.unique && TwoAlike(names, meta.columns, rows)) {
      AddedIs(db, CreateIndex(db, table, meta).db, table, IndexState(meta, Invert(KeyMap(names, meta.columns, rows))));
    }
  }

  lemma CreateIndexIs(db: Db, table: string, meta: IndexMeta)
    requires KeysAgree(db) && table in db.schemas && meta.name !in db.indexes[table] && meta.columns != []
    ensures var names, rows := Names(db.schemas[table]), db.rows[table];
            var built := BuildEntries(names, meta, rows, Sorted(rows.Keys), map[]);
            CreateIndex(db, table, meta) ==
            if built.Err? then Fail(db, built.error)
            else Effect(WithIndex(db, table, IndexState(meta, built.value)), [UndoDropIndex(table, meta.name)], None)
  {
    hide BuildEntries;
  }

  function WithIndex(db: Db, table: string, index: IndexState): Db
    requires table in db.indexes
  {
    db.(indexes := db.indexes[table := db.indexes[table][index.meta.name := index]])
  }

  lemma AddedIs(db: Db, after: Db, table: string, index: IndexState)
    requires KeysAgree(db) && table in db.schemas && after == WithIndex(db, table, index)
    requires index.entries == Invert(KeyMap(Names(db.schemas[table]), index.meta.columns, db.rows[table]))
    ensures IndexAdded(db, after, table, index.meta)
  {
    FiledIff(Names(db.schemas[table]), index.meta.columns, db.rows[table]);
    hide KeyOf;
    assert after.indexes[table][index.meta.name] == index;
  }

  lemma RowsFitHere(db: Db, table: string)
    requires StoreOk(db) && table in db.schemas
    ensures KeysAgree(db) && RowsFit(Names(db.schemas[table]), db.rows[table])
  {
    assert TableAt(db, table);
    forall id | id in db.rows[table] ensures |db.rows[table][id]| == |db.schemas[table].columns| {
      assert RowError(db.schemas[table], db.rows[table][id]).None?;
    }
  }

  predicate Filed(index: IndexState, key: Key, id: nat) { key in index.entries && id in index.entries[key] }

  lemma FiledIff(names: seq<string>, columns: seq<string>, rows: Rows)
    ensures var entries := Invert(KeyMap(names, columns, rows));
            forall key, id :: (key in entries && id in entries[key]) <==>
              id in rows && KeyOf(names, columns, rows[id]) == key
  {
    var keys := KeyMap(names, columns, rows);
    forall id | id in rows ensures keys[id] in Invert(keys) && id in Invert(keys)[keys[id]] { InBucket(keys, id); }
  }

  lemma BuildErrorKind(names: seq<string>, meta: IndexMeta, rows: Rows)
    requires ColumnsKnown(names, meta.columns) && RowsFit(names, rows)
    ensures var r := BuildEntries(names, meta, rows, Sorted(rows.Keys), map[]); r.Err? ==> r.error == UniqueFailed
  {
    NothingDone(names, meta.columns, rows);
    AllPending(rows);
    BuildIsInvert(names, meta, rows, Sorted(rows.Keys), {}, map[]);
  }

  lemma UniqueKeysIff(names: seq<string>, meta: IndexMeta, rows: Rows)
    ensures UniqueKeys(meta, KeyMap(names, meta.columns, rows)) <==>
            !(meta.unique && TwoAlike(names, meta.columns, rows))
  {
    var keys := KeyMap(names, meta.columns, rows);
    if meta.unique && TwoAlike(names, meta.columns, rows) {
      var a, b :| a in rows && b in rows && a != b && SameKey(names, meta.columns, rows[a], rows[b]);
      assert Clash(meta, keys, a, b);
    } else {
      forall a, b ensures !Clash(meta, keys, a, b) {
        if Clash(meta, keys, a, b) { assert SameKey(names, meta.columns, rows[a], rows[b]); }
      }
    }
  }

  // ----- Which rows a table accepts -----------------------------------------

  /** A row that may stand in a table, beside all stored rows but `except`: its cells suit their columns,
      no CHECK is false on it, its primary key differs from theirs, and no unique index holds its key. */
  ghost predicate Acceptable(env: Env, db: Db, table: string, row: Row, except: Option<nat>)
    requires KeysAgree(db) && table in db.schemas
  {
    var schema, rows, indexes := db.schemas[table], db.rows[table], db.indexes[table];
    && |row| == |schema.columns| && (forall j :: 0 <= j < |row| ==> CellSuits(schema, schema.columns[j], row[j]))
    && ChecksPass(env, schema, row)
    && KeyDiffers(schema, rows, row, except)
    && (forall n :: n in indexes ==> Welcomes(Names(schema), indexes[n].meta, rows, row, except))
  }

  ghost predicate ChecksPass(env: Env, schema: Schema, row: Row) {
    env.ignoreChecks || ChecksHold(env, schema, row)
  }

  /** When there is a primary key, every other row differs in one of its columns. */
  ghost predicate KeyDiffers(schema: Schema, rows: Rows, row: Row, except: Option<nat>) {
    (exists i :: 0 <= i < |schema.columns| && schema.columns[i].primaryKey) ==>
      forall id :: id in rows && Some(id) != except ==> DiffersInKey(schema, rows[id], row)
  }

  ghost predicate DiffersInKey(schema: Schema, a: Row, b: Row) {
    exists i :: 0 <= i < |schema.columns| && schema.columns[i].primaryKey && i < |a| && i < |b| && a[i] != b[i]
  }

  ghost predicate Welcomes(names: seq<string>, meta: IndexMeta, rows: Rows, row: Row, except: Option<nat>) {
    ColumnsKnown(names, meta.columns) && !(meta.unique && SharedKey(names, meta.columns, rows, row, except))
  }

  lemma KeyFreeIff(schema: Schema, rows: Rows, row: Row, except: Option<nat>)
    requires RowsValid(schema, rows) && |row| == |schema.columns|
    ensures PrimaryKeyFree(schema, row, rows, except) <==> KeyDiffers(schema, rows, row, except)
  {
    forall id | id in rows ensures SamePrimaryKey(schema, rows[id], row) <==> !DiffersInKey(schema, rows[id], row) {
      assert RowError(schema, rows[id]).None?;
    }
  }

  lemma ChecksPassIff(env: Env, schema: Schema, row: Row)
    ensures ChecksPass(env, schema, row) <==> (env.ignoreChecks || CheckError(env, schema, row).None?)
  {
    ChecksKeptIff(env, schema, row);
  }

  // ----- Inserting -----------------------------------------------------------

  /** The id a new row gets: its integer primary key, or the next one when it has none or leaves it NULL. */
  function NewId(db: Db, table: string, row: Row): Option<nat>
    requires table in db.schemas && |row| == |db.schemas[table].columns|
  {
    var next := if table in db.counters then db.counters[table] else 1;
    match RowIdColumn(db.schemas[table])
    case None => Some(next)
    case Some(i) =>
      match row[i]
      case Integer(v) => if v >= 0 then Some(v) else None
      case Null => if next <= MAX_I64 then Some(next) else None
      case _ => None
  }

  lemma PlacedIs(db: Db, table: string, row: Row)
    requires table in db.schemas && |row| == |db.schemas[table].columns|
    ensures var placed := PlaceInsert(db, table, db.schemas[table], row).0;
            match NewId(db, table, row)
            case None => placed.Err?
            case Some(id) =>
              placed.Ok? && placed.value.id == id && placed.value.row == WithId(db.schemas[table], row, id)
  {
    if RowIdColumn(db.schemas[table]).Some? && row[RowIdColumn(db.schemas[table]).value].Integer? {
      var i := RowIdColumn(db.schemas[table]).value;
      assert row[i := row[i]] == row;
    }
  }

  lemma AllWelcomeIff(names: seq<string>, indexes: Indexes, rows: Rows, row: Row)
    requires IndexesOk(names, indexes, rows) && |row| == |names|
    ensures AllAddable(names, indexes, row) <==>
            forall n :: n in indexes ==> Welcomes(names, indexes[n].meta, rows, row, None)
  {
    forall n | n in indexes
      ensures Addable(names, indexes[n], row) <==> Welcomes(names, indexes[n].meta, rows, row, None)
    {
      assert IndexOk(names, indexes[n], rows);
      RefusalIff(names, indexes[n], rows, row);
    }
  }

  /** An insert succeeds exactly when the table and an id are there and the row, with its id filled in, is
      acceptable; it then has that id. */
  lemma InsertSucceedsIff(env: Env, db: Db, table: string, row: Row, order: seq<string>)
    requires StoreOk(db) && Lists(order, IndexesOf(db, table).Keys)
    ensures var (e, id) := InsertRow(env, db, table, row, order);
            (id.Some? <==>
              table in db.schemas && |row| == |db.schemas[table].columns| && NewId(db, table, row).Some? &&
              Acceptable(env, db, table, WithId(db.schemas[table], row, NewId(db, table, row).value), None)) &&
            (id.Some? ==> id == NewId(db, table, row))
  {
    if table in db.schemas && |row| == |db.schemas[table].columns| {
      var schema, rows, indexes := db.schemas[table], db.rows[table], db.indexes[table];
      PlacedIs(db, table, row);
      assert TableAt(db, table);
      if NewId(db, table, row).Some? {
        var id := NewId(db, table, row).value;
        var row' := WithId(schema, row, id);
        PassesIff(env, schema, table, rows, indexes, row', order);
        RowValidIff(schema, row');
        ChecksPassIff(env, schema, row');
        KeyFreeIff(schema, rows, row', None);
        AllWelcomeIff(Names(schema), indexes, rows, row');
        AddableSplit(schema, table, indexes, row');
        hide RowError, CheckError, PrimaryKeyFree, CellSuits, ChecksPass, KeyDiffers, Welcomes, WithId;
        if InsertPasses(env, schema, table, rows, indexes, row') {
          InsertChecksSuffice(env, db, table, row, order);
        }
      }
    }
  }

  /** The number the next row without an id of its own gets. */
  function NextNumber(db: Db, table: string): nat { if table in db.counters then db.counters[table] else 1 }

  /** An insert that takes its id from the counter moves it on by one, whether or not the row is accepted;
      one that brings its id leaves it. */
  lemma InsertCounters(env: Env, db: Db, table: string, row: Row, order: seq<string>)
    ensures InsertRow(env, db, table, row, order).0.db.counters ==
            if table in db.schemas && |row| == |db.schemas[table].columns| &&
                (RowIdColumn(db.schemas[table]).None? || row[RowIdColumn(db.schemas[table]).value].Null?)
            then db.counters[table := NextNumber(db, table) + 1] else db.counters
  {
    if table in db.schemas && |row| == |db.schemas[table].columns| {
      var schema := db.schemas[table];
      var (placed, counters) := PlaceInsert(db, table, schema, row);
      assert counters == if RowIdColumn(schema).None? || row[RowIdColumn(schema).value].Null?
                         then db.counters[table := NextNumber(db, table) + 1] else db.counters;
      hide PlaceInsert, RowIdColumn, InsertError, StoreInserted;
      if placed.Ok? {
        FilingKeepsCounters(db.(counters := counters), table, Names(schema), placed.value.id, placed.value.row, order);
      }
    }
  }

  lemma FilingKeepsCounters(db: Db, table: string, names: seq<string>, id: nat, row: Row, order: seq<string>)
    ensures StoreInserted(db, table, names, id, row, order).0.db.counters == db.counters
  {
  }

  lemma AddableSplit(schema: Schema, table: string, indexes: Indexes, row: Row)
    ensures AllAddable(Names(schema), indexes, row) <==>
            UniqueKeysFree(schema, table, indexes, row) && SkippedTake(schema, table, indexes, row)
  {
  }

  // ----- Updating ------------------------------------------------------------

  /** The id an updated row has afterwards: its integer primary key, or its old one. */
  function TargetId(schema: Schema, id: nat, row: Row): Option<nat>
    requires |row| == |schema.columns|
  {
    match RowIdColumn(schema)
    case None => Some(id)
    case Some(i) =>
      match row[i]
      case Integer(v) => if v >= 0 then Some(v) else None
      case Null => if id <= MAX_I64 then Some(id) else None
      case _ => None
  }

  lemma TargetIs(schema: Schema, id: nat, row: Row)
    requires |row| == |schema.columns|
    ensures match TargetId(schema, id, row)
            case None => PlaceUpdate(schema, id, row).Err?
            case Some(target) => PlaceUpdate(schema, id, row) == Ok((target, WithId(schema, row, target)))
  {
    if RowIdColumn(schema).Some? && row[RowIdColumn(schema).value].Integer? {
      var i := RowIdColumn(schema).value;
      assert row[i := row[i]] == row;
    }
  }

  lemma ExceptIff(names: seq<string>, index: IndexState, rows: Rows, id: nat, row: Row)
    requires IndexOk(names, index, rows) && id in rows && |row| == |names|
    ensures var key := ProjectKey(names, index.meta.columns, row);
            (key.Some? && !(EnforcesUnique(index.meta, key.value) && key.value in index.entries &&
              index.entries[key.value] - {id} != {})) <==>
            Welcomes(names, index.meta, rows, row, Some(id))
  {
    var columns := index.meta.columns;
    var keys, key := KeyMap(names, columns, rows), KeyOf(names, columns, row);
    ProjectsWhenKnown(names, columns, row);
    if a :| a in rows && Some(a) != Some(id) && KeyOf(names, columns, rows[a]) == key {
      InBucket(keys, a);
      assert a in index.entries[key] - {id};
    }
    if key in index.entries && index.entries[key] - {id} != {} {
      var a :| a in index.entries[key] - {id};
      assert a in rows && KeyOf(names, columns, rows[a]) == key;
    }
  }

  lemma UpdatePassesIff(env: Env, db: Db, table: string, id: nat, row: Row)
    requires StoreOk(db) && table in db.schemas && id in db.rows[table] && |row| == |db.schemas[table].columns|
    ensures UpdateError(env, db.schemas[table], db.rows[table], db.indexes[table], id, row).None? <==>
            Acceptable(env, db, table, row, Some(id))
  {
    var schema, rows, indexes := db.schemas[table], db.rows[table], db.indexes[table];
    assert TableAt(db, table);
    RowValidIff(schema, row);
    ChecksPassIff(env, schema, row);
    KeyFreeIff(schema, rows, row, Some(id));
    hide RowError, CheckError, PrimaryKeyFree, CellSuits, ChecksPass, KeyDiffers;
    assert UniqueKeysFreeExcept(Names(schema), indexes, id, row) <==>
        forall n :: n in indexes ==> Welcomes(Names(schema), indexes[n].meta, rows, row, Some(id)) by {
      forall n | n in indexes
        ensures IndexOk(Names(schema), indexes[n], rows)
      {
      }
      AllExceptIff(Names(schema), indexes, rows, id, row);
    }
  }

  lemma AllExceptIff(names: seq<string>, indexes: Indexes, rows: Rows, id: nat, row: Row)
    requires IndexesOk(names, indexes, rows) && id in rows && |row| == |names|
    ensures UniqueKeysFreeExcept(names, indexes, id, row) <==>
            forall n :: n in indexes ==> Welcomes(names, indexes[n].meta, rows, row, Some(id))
  {
    forall n | n in indexes
      ensures var key := ProjectKey(names, indexes[n].meta.columns, row);
              (key.Some? && !(EnforcesUnique(indexes[n].meta, key.value) && key.value in indexes[n].entries &&
                indexes[n].entries[key.value] - {id} != {})) <==>
              Welcomes(names, indexes[n].meta, rows, row, Some(id))
    {
      assert IndexOk(names, indexes[n], rows);
      ExceptIff(names, indexes[n], rows, id, row);
    }
    hide Welcomes;
  }

  /** An update of a stored row succeeds exactly when the row keeps as it is or is acceptable beside the
      others; the new row, with its id filled in, then stands under its id, the old one is gone, and every
      other row is as it was. When it fails nothing changes, and a row that is not there is left alone. */
  lemma UpdateSucceedsIff(env: Env, db: Db, table: string, id: nat, row: Row)
    requires StoreOk(db)
    ensures var e := UpdateRow(env, db, table, id, row);
            (e.error.Some? ==> e.db == db) && e.db.schemas == db.schemas &&
            if table !in db.schemas || |row| != |db.schemas[table].columns| then e.error.Some?
            else if id !in db.rows[table] then e.error.None? && e.db == db
            else
              var schema, rows := db.schemas[table], db.rows[table];
              match TargetId(schema, id, row)
              case None => e.error.Some?
              case Some(target) =>
                var row' := WithId(schema, row, target);
                (e.error.None? <==> (target == id && rows[id] == row') || Acceptable(env, db, table, row', Some(id))) &&
                (e.error.None? ==> e.db.rows == db.rows[table := (rows - {id})[target := row']])
  {
    if table !in db.schemas || |row| != |db.schemas[table].columns| { return; }
    var schema, rows: Rows, indexes := db.schemas[table], db.rows[table], db.indexes[table];
    if id in rows && TargetId(schema, id, row).Some? {
      var target := TargetId(schema, id, row).value;
      var row' := WithId(schema, row, target);
      TargetIs(schema, id, row);
      UpdatePassesIff(env, db, table, id, row');
      assert TableAt(db, table);
      if target == id && rows[id] == row' {
        assert (rows - {id})[id := rows[id]] == rows;
        assert db.rows[table := rows] == db.rows;
      } else if UpdateError(env, schema, rows, indexes, id, row').None? {
        UpdateTargetFree(schema, rows, indexes, db.counters[table], id, row);
        StoreUpdatedOk(db, table, id, target, row');
      }
    } else if id in rows {
      TargetIs(schema, id, row);
    }
  }

  /** An update that changes the store leaves the counter past the new id, and never takes it back. */
  lemma UpdateCounters(env: Env, db: Db, table: string, id: nat, row: Row)
    requires StoreOk(db)
    ensures var e := UpdateRow(env, db, table, id, row);
            if e.undo == [] then e.db.counters == db.counters
            else
              table in db.schemas && |row| == |db.schemas[table].columns| &&
              TargetId(db.schemas[table], id, row).Some? &&
              var past := TargetId(db.schemas[table], id, row).value + 1;
              e.db.counters ==
              db.counters[table := if NextNumber(db, table) < past then past else NextNumber(db, table)]
  {
    hide UpdateRow, StoreOk, RowIdColumn, TargetId, PlaceUpdate;
    UpdateKeepsStoreOk(env, db, table, id, row);
    if UpdateChanges(env, db, table, id, row) { TargetIs(db.schemas[table], id, row); }
  }
}
