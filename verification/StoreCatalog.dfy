/** Schema and index operations keep the store right and log what undoes them. */
module StoreCatalog {
  import opened Common
  import opened CheckExprs
  import opened Schemas
  import opened Ascending
  import opened StoreSpec
  import opened StoreInvariant
  import opened StoreRows

  // ----- Filling indexes ---------------------------------------------------

  function Only(rows: Rows, ids: set<nat>): Rows { map id | id in rows && id in ids :: rows[id] }

  lemma OnlyNext(names: seq<string>, columns: seq<string>, rows: Rows, done: set<nat>, id: nat)
    requires id in rows && id !in done
    ensures KeyMap(names, columns, Only(rows, done + {id})) ==
            KeyMap(names, columns, Only(rows, done))[id := KeyOf(names, columns, rows[id])]
  {
  }

  lemma OnlyAll(rows: Rows)
    ensures Only(rows, rows.Keys) == rows
  {
  }

  /** The rows still to be indexed: ascending, stored, and none of them indexed yet. */
  ghost predicate Pending(rows: Rows, ids: seq<nat>, done: set<nat>) {
    StrictlyAscending(ids) && forall id :: id in ids ==> id in rows && id !in done
  }

  lemma PendingRest(rows: Rows, ids: seq<nat>, done: set<nat>)
    requires Pending(rows, ids, done) && ids != []
    ensures Pending(rows, ids[1..], done + {ids[0]})
    ensures (set id | id in ids) == (set id | id in ids[1..]) + {ids[0]}
  {
    assert ids[0] in ids;
    forall id | id in ids[1..] ensures id in ids && id != ids[0] {
      var k :| 0 <= k < |ids[1..]| && ids[1..][k] == id;
      assert ids[k + 1] == id;
    }
  }

  ghost predicate RowsFit(names: seq<string>, rows: Rows) { forall id :: id in rows ==> |rows[id]| == |names| }

  /** The fill loop, run from any point, ends with exactly the entries the rows call for. */
  lemma {:induction false} FillIsInvert(names: seq<string>, columns: seq<string>, rows: Rows, ids: seq<nat>,
      done: set<nat>, entries: Entries)
    requires Pending(rows, ids, done) && ColumnsKnown(names, columns) && RowsFit(names, rows)
    requires entries == Invert(KeyMap(names, columns, Only(rows, done)))
    ensures FillEntries(names, columns, rows, ids, entries) ==
            (Invert(KeyMap(names, columns, Only(rows, done + (set id | id in ids)))), true)
    decreases |ids|
  {
    hide Invert, KeyOf;
    if ids == [] {
      assert done + (set id | id in ids) == done;
    } else {
      var id := ids[0];
      assert id in ids;
      ProjectsWhenKnown(names, columns, rows[id]);
      var keys := KeyMap(names, columns, Only(rows, done));
      InvertAdd(keys, id, KeyOf(names, columns, rows[id]));
      OnlyNext(names, columns, rows, done, id);
      PendingRest(rows, ids, done);
      FillIsInvert(names, columns, rows, ids[1..], done + {id}, AddEntry(entries, KeyOf(names, columns, rows[id]), id));
      assert done + {id} + (set i | i in ids[1..]) == done + (set i | i in ids);
    }
  }

  lemma NothingDone(names: seq<string>, columns: seq<string>, rows: Rows)
    ensures KeyMap(names, columns, Only(rows, {})) == map[] && Invert(KeyMap(names, columns, Only(rows, {}))) == map[]
  {
    assert Only(rows, {}) == map[];
    assert Invert(map[]) == map[];
  }

  lemma AllPending(rows: Rows)
    ensures Pending(rows, Sorted(rows.Keys), {}) && {} + (set id | id in Sorted(rows.Keys)) == rows.Keys
    ensures Only(rows, {} + (set id | id in Sorted(rows.Keys))) == rows
  {
    OnlyAll(rows);
  }

  lemma FillAll(names: seq<string>, columns: seq<string>, rows: Rows)
    requires RowsFit(names, rows) && (rows != map[] ==> ColumnsKnown(names, columns))
    ensures FillEntries(names, columns, rows, Sorted(rows.Keys), map[]) == (Invert(KeyMap(names, columns, rows)), true)
  {
    NothingDone(names, columns, rows);
    AllPending(rows);
    if rows == map[] {
      assert Sorted(rows.Keys) == [] && Only(rows, {}) == rows;
    } else {
      FillIsInvert(names, columns, rows, Sorted(rows.Keys), {}, map[]);
    }
  }

  /** `create_index` fills an index exactly when no two rows clash, and then rightly. */
  lemma {:induction false} BuildIsInvert(names: seq<string>, meta: IndexMeta, rows: Rows, ids: seq<nat>, done: set<nat>,
      entries: Entries)
    requires Pending(rows, ids, done) && ColumnsKnown(names, meta.columns) && RowsFit(names, rows)
    requires entries == Invert(KeyMap(names, meta.columns, Only(rows, done)))
    requires UniqueKeys(meta, KeyMap(names, meta.columns, Only(rows, done)))
    ensures var all := KeyMap(names, meta.columns, Only(rows, done + (set id | id in ids)));
            var r := BuildEntries(names, meta, rows, ids, entries);
            (r.Ok? <==> UniqueKeys(meta, all)) && (r.Ok? ==> r.value == Invert(all)) &&
                (r.Err? ==> r.error == UniqueFailed)
    decreases |ids|
  {
    if ids == [] {
      assert done + (set id | id in ids) == done;
    } else {
      var id, columns := ids[0], meta.columns;
      assert id in ids;
      ProjectsWhenKnown(names, columns, rows[id]);
      var keys, key := KeyMap(names, columns, Only(rows, done)), KeyOf(names, columns, rows[id]);
      KeyTakenMeans(IndexState(meta, entries), keys, key);
      InvertAdd(keys, id, key);
      OnlyNext(names, columns, rows, done, id);
      PendingRest(rows, ids, done);
      assert done + {id} + (set i | i in ids[1..]) == done + (set i | i in ids);
      if KeyTaken(IndexState(meta, entries), key) {
        var other :| other in keys && keys[other] == key;
        var all := KeyMap(names, columns, Only(rows, done + (set i | i in ids)));
        assert Clash(meta, all, id, other);
      } else {
        UniqueKeysAdd(meta, keys, id, key);
        BuildIsInvert(names, meta, rows, ids[1..], done + {id}, AddEntry(entries, key, id));
      }
    }
  }

  lemma BuildAll(names: seq<string>, meta: IndexMeta, rows: Rows)
    requires ColumnsKnown(names, meta.columns) && RowsFit(names, rows)
    ensures var keys, r := KeyMap(names, meta.columns, rows), BuildEntries(names, meta, rows, Sorted(rows.Keys), map[]);
            (r.Ok? <==> UniqueKeys(meta, keys)) && (r.Ok? ==> r.value == Invert(keys))
  {
    NothingDone(names, meta.columns, rows);
    AllPending(rows);
    BuildIsInvert(names, meta, rows, Sorted(rows.Keys), {}, map[]);
  }

  // ----- Undoing one table -------------------------------------------------

  /** Two stores that may differ in one table's four entries only. */
  ghost predicate SameElsewhere(a: Db, b: Db, table: string) {
    && a.schemas - {table} == b.schemas - {table} && a.rows - {table} == b.rows - {table}
    && a.indexes - {table} == b.indexes - {table} && a.counters - {table} == b.counters - {table}
  }

  lemma PutKey<K, V>(m: map<K, V>, n: map<K, V>, k: K)
    requires k in n && m - {k} == n - {k}
    ensures m[k := n[k]] == n
  {
    forall x | x in n ensures x in m[k := n[k]] && m[k := n[k]][x] == n[x] {
      if x != k { assert x in n - {k} && (n - {k})[x] == n[x]; assert x in m - {k} && (m - {k})[x] == m[x]; }
    }
    forall x | x in m[k := n[k]] ensures x in n {
      if x != k { assert x in m - {k}; }
    }
  }

  /** Restoring a snapshot brings the table back exactly, whatever was done to it. */
  lemma RestoreBrings(now: Db, before: Db, table: string)
    requires KeysAgree(before) && table in before.schemas && before.schemas[table].name == table
    requires SameElsewhere(now, before, table)
    ensures ApplyUndo(now, Snapshot(before, table)) == Some(before)
  {
    PutKey(now.schemas, before.schemas, table);
    PutKey(now.rows, before.rows, table);
    PutKey(now.indexes, before.indexes, table);
    PutKey(now.counters, before.counters, table);
  }

  lemma RestoreReverts(e: Effect, before: Db, table: string)
    requires StoreOk(before) && table in before.schemas && SameElsewhere(e.db, before, table)
    requires e.undo == [Snapshot(before, table)]
    ensures Reverts(before, e)
  {
    assert TableAt(before, table);
    UnwindOne(e.db, Snapshot(before, table));
    RestoreBrings(e.db, before, table);
  }

  lemma ReplaceElsewhere(db: Db, table: string, schema: Schema, rows: Rows, indexes: Indexes)
    requires KeysAgree(db) && table in db.schemas
    ensures SameElsewhere(Db(db.schemas[table := schema], db.rows[table := rows], db.indexes[table := indexes],
            db.counters), db, table)
  {
  }

  /** Replacing one table by something right keeps the store right. */
  lemma ReplacedTableOk(db: Db, table: string, schema: Schema, rows: Rows, indexes: Indexes)
    requires StoreOk(db) && table in db.schemas && schema.name == table
    requires TableOk(schema, rows, indexes, db.counters[table])
    ensures StoreOk(Db(db.schemas[table := schema], db.rows[table := rows], db.indexes[table := indexes], db.counters))
  {
    var db' := Db(db.schemas[table := schema], db.rows[table := rows], db.indexes[table := indexes], db.counters);
    forall t | t in db'.schemas ensures TableAt(db', t) {
      if t != table { assert TableAt(db, t); }
    }
  }

  // ----- Creating and dropping tables --------------------------------------

  lemma Unput<K, V>(m: map<K, V>, k: K, v: V)
    requires k !in m
    ensures m[k := v] - {k} == m
  {
  }

  lemma WithoutAdded(db: Db, schema: Schema)
    requires KeysAgree(db) && schema.name !in db.schemas
    ensures Without(CreateSchema(db, schema).db, schema.name) == db
  {
    var t := schema.name;
    Unput(db.schemas, t, schema);
    Unput(db.rows, t, map[]);
    Unput(db.indexes, t, map[]);
    Unput(db.counters, t, 1);
  }

  lemma EmptyTableOk(schema: Schema, counter: nat)
    ensures TableOk(schema, map[], map[], counter) <==> DistinctNames(schema)
  {
  }

  /** Creating a table is always undone. The store stays right unless a column name occurs twice. */
  lemma CreateSchemaPreserves(db: Db, schema: Schema)
    requires StoreOk(db)
    ensures var e := CreateSchema(db, schema);
            Reverts(db, e) && (StoreOk(e.db) <==> (schema.name in db.schemas || DistinctNames(schema)))
  {
    hide DistinctNames;
    var e, t := CreateSchema(db, schema), schema.name;
    UnwindNothing(db);
    if t !in db.schemas {
      UnwindOne(e.db, UndoDropSchema(t));
      WithoutAdded(db, schema);
      EmptyTableOk(schema, e.db.counters[t]);
      forall u | u in e.db.schemas && u != t ensures TableAt(e.db, u) { assert TableAt(db, u); }
      if StoreOk(e.db) { assert TableAt(e.db, t); }
    }
  }

  lemma DropSchemaPreserves(db: Db, table: string)
    requires StoreOk(db)
    ensures var e := DropSchema(db, table); StoreOk(e.db) && Reverts(db, e)
  {
    var e := DropSchema(db, table);
    UnwindNothing(db);
    if table in db.schemas {
      RestoreReverts(e, db, table);
      forall u | u in e.db.schemas ensures TableAt(e.db, u) { assert TableAt(db, u); }
    }
  }

  /** A new schema suits a table of the same layout, and any table without rows. */
  ghost predicate Suits(db: Db, schema: Schema) {
    schema.name in db.schemas ==>
      SameLayout(db.schemas[schema.name], schema) || (RowsOf(db, schema.name) == map[] && DistinctNames(schema))
  }

  lemma NoRowsOk(a: Schema, b: Schema, indexes: Indexes, counter: nat)
    requires TableOk(a, map[], indexes, counter) && DistinctNames(b)
    ensures TableOk(b, map[], indexes, counter)
  {
    var none: Rows := map[];
    forall n | n in indexes ensures indexes[n].meta.name == n && IndexOk(Names(b), indexes[n], none) {
      assert IndexOk(Names(a), indexes[n], none);
      assert KeyMap(Names(a), indexes[n].meta.columns, none) == KeyMap(Names(b), indexes[n].meta.columns, none);
    }
  }

  /** Replacing a schema is always undone, and keeps the store right when the new one suits the rows. */
  lemma ReplaceSchemaPreserves(db: Db, schema: Schema)
    requires StoreOk(db)
    ensures var e := ReplaceSchema(db, schema); Reverts(db, e) && (Suits(db, schema) ==> StoreOk(e.db))
  {
    var e, t := ReplaceSchema(db, schema), schema.name;
    UnwindNothing(db);
    if t in db.schemas {
      assert TableAt(db, t);
      if Suits(db, schema) {
        if SameLayout(db.schemas[t], schema) {
          LayoutKeepsTableOk(db.schemas[t], schema, db.rows[t], db.indexes[t], db.counters[t]);
        } else {
          NoRowsOk(db.schemas[t], schema, db.indexes[t], db.counters[t]);
        }
        ReplacedTableOk(db, t, schema, db.rows[t], db.indexes[t]);
      }
      assert db.rows[t := db.rows[t]] == db.rows && db.indexes[t := db.indexes[t]] == db.indexes;
      ReplaceElsewhere(db, t, schema, db.rows[t], db.indexes[t]);
      RestoreReverts(e, db, t);
    }
  }

  // ----- Indexes -----------------------------------------------------------

  lemma BuildMissing(names: seq<string>, meta: IndexMeta, rows: Rows)
    requires !ColumnsKnown(names, meta.columns) && rows != map[]
    ensures BuildEntries(names, meta, rows, Sorted(rows.Keys), map[]) == Err(UnknownColumn)
  {
    var ids := Sorted(rows.Keys);
    var id :| id in rows;
    assert id in ids;
    var c :| c in meta.columns && c !in names;
    assert Lookup(names, rows[ids[0]], c).Err?;
  }

  /** `create_index` on a right store: when it succeeds, the conditions under which it does, and that it
      leaves a right store and is undone either way. On a table without rows any columns will do. */
  lemma CreateIndexPreserves(db: Db, table: string, meta: IndexMeta)
    requires StoreOk(db)
    ensures var e := CreateIndex(db, table, meta);
            StoreOk(e.db) && Reverts(db, e) &&
            (e.error.None? <==>
              table in db.schemas && meta.name !in db.indexes[table] && meta.columns != [] &&
              (db.rows[table] != map[] ==>
                ColumnsKnown(Names(db.schemas[table]), meta.columns) &&
                UniqueKeys(meta, KeyMap(Names(db.schemas[table]), meta.columns, db.rows[table]))))
  {
    var e := CreateIndex(db, table, meta);
    UnwindNothing(db);
    if table in db.schemas && meta.name !in db.indexes[table] && meta.columns != [] {
      var schema, rows: Rows := db.schemas[table], db.rows[table];
      assert TableAt(db, table);
      forall id | id in rows ensures |rows[id]| == |Names(schema)| { assert RowError(schema, rows[id]).None?; }
      if ColumnsKnown(Names(schema), meta.columns) {
        BuildAll(Names(schema), meta, rows);
      } else if rows != map[] {
        BuildMissing(Names(schema), meta, rows);
      } else {
        NothingBuilt(Names(schema), meta);
      }
      if e.error.None? { CreatedIndexOk(db, table, meta); }
    }
  }

  lemma NothingBuilt(names: seq<string>, meta: IndexMeta)
    ensures BuildEntries(names, meta, map[], Sorted({}), map[]) == Ok(Invert(KeyMap(names, meta.columns, map[])))
  {
    assert Invert(KeyMap(names, meta.columns, map[])) == map[];
  }

  lemma OneMoreIndexOk(names: seq<string>, indexes: Indexes, rows: Rows, state: IndexState)
    requires IndexesOk(names, indexes, rows) && IndexOk(names, state, rows)
    ensures IndexesOk(names, indexes[state.meta.name := state], rows)
  {
    var indexes' := indexes[state.meta.name := state];
    forall n | n in indexes' ensures indexes'[n].meta.name == n && IndexOk(names, indexes'[n], rows) {
      if n != state.meta.name { assert IndexOk(names, indexes[n], rows); }
    }
  }

  lemma CreatedIndexOk(db: Db, table: string, meta: IndexMeta)
    requires StoreOk(db) && table in db.schemas && meta.name !in db.indexes[table] && meta.columns != []
    requires var names, rows := Names(db.schemas[table]), db.rows[table];
             && BuildEntries(names, meta, rows, Sorted(rows.Keys), map[]) ==
                 Ok(Invert(KeyMap(names, meta.columns, rows)))
             && (rows != map[] ==> ColumnsKnown(names, meta.columns))
             && UniqueKeys(meta, KeyMap(names, meta.columns, rows))
    ensures var e := CreateIndex(db, table, meta); StoreOk(e.db) && Reverts(db, e)
  {
    var e := CreateIndex(db, table, meta);
    var schema, rows: Rows, indexes := db.schemas[table], db.rows[table], db.indexes[table];
    assert TableAt(db, table);
    var state := IndexState(meta, Invert(KeyMap(Names(schema), meta.columns, rows)));
    var indexes' := indexes[meta.name := state];
    assert e.db == db.(indexes := db.indexes[table := indexes']) && e.undo == [UndoDropIndex(table, meta.name)];
    hide BuildEntries, CreateIndex;
    OneMoreIndexOk(Names(schema), indexes, rows, state);
    ChangedTableOk(db, table, rows, indexes', db.counters);
    assert db.rows[table := rows] == db.rows;
    UnwindOne(e.db, UndoDropIndex(table, meta.name));
    Unput(indexes, meta.name, state);
    PutBack(db.indexes, table, indexes');
  }

  lemma DropIndexPreserves(db: Db, table: string, index: string)
    requires StoreOk(db)
    ensures var e := DropIndex(db, table, index); StoreOk(e.db) && Reverts(db, e)
  {
    var e := DropIndex(db, table, index);
    UnwindNothing(db);
    if e.error.None? {
      var schema, rows: Rows, indexes := db.schemas[table], db.rows[table], db.indexes[table];
      assert TableAt(db, table);
      var indexes' := indexes - {index};
      forall n | n in indexes' ensures indexes'[n].meta.name == n && IndexOk(Names(schema), indexes'[n], rows) {
        assert IndexOk(Names(schema), indexes[n], rows);
      }
      ChangedTableOk(db, table, rows, indexes', db.counters);
      assert db.rows[table := rows] == db.rows;
      UnwindOne(e.db, RestoreIndex(table, index, indexes[index]));
      assert indexes'[index := indexes[index]] == indexes;
      PutBack(db.indexes, table, indexes');
    }
  }
}
