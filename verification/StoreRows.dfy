/** Row operations keep the store right and log what undoes them. */
module StoreRows {
  import opened Common
  import opened Values
  import opened Schemas
  import opened StoreSpec
  import opened StoreInvariant

  /** Replaying an operation's records on the state it left succeeds and brings back the state before
      it, counters aside. */
  ghost predicate Reverts(before: Db, e: Effect) {
    var r := Unwind(e.db, e.undo);
    r.Some? && SameUpToCounters(r.value, before)
  }

  lemma UnwindNothing(db: Db)
    ensures Unwind(db, []) == Some(db)
  {
  }

  lemma UnwindOne(db: Db, u: UndoOp)
    ensures Unwind(db, [u]) == ApplyUndo(db, u)
  {
    assert [u][..0] == [];
    if ApplyUndo(db, u).Some? {
      UnwindNothing(ApplyUndo(db, u).value);
    }
  }

  lemma PutBack<K, V>(m: map<K, V>, k: K, v: V)
    requires k in m
    ensures m[k := v][k := m[k]] == m
  {
  }

  /** What replaying a record does, when the index operations it needs succeed. */
  lemma ApplyUndoInsert(db: Db, table: string, id: nat, indexes: Indexes)
    requires table in db.schemas && table in db.rows && table in db.indexes && id in db.rows[table]
    requires RemoveRow(Names(db.schemas[table]), db.indexes[table], id, db.rows[table][id]) == Some(indexes)
    ensures ApplyUndo(db, UndoInsert(table, id)) ==
            Some(Db(db.schemas, db.rows[table := db.rows[table] - {id}], db.indexes[table := indexes], db.counters))
  {
  }

  lemma ApplyReinsertRow(db: Db, table: string, id: nat, row: Row, indexes: Indexes)
    requires table in db.schemas && table in db.rows && table in db.indexes
    requires AddRow(Names(db.schemas[table]), db.indexes[table], id, row) == Some(indexes)
    ensures ApplyUndo(db, ReinsertRow(table, id, row)) ==
            Some(Db(db.schemas, db.rows[table := Put(db.rows[table], id, row)], db.indexes[table := indexes],
                    RaisedCounters(db.counters, table, id)))
  {
  }

  lemma ApplyRestoreRow(db: Db, table: string, id: nat, row: Row, indexes: Indexes)
    requires table in db.schemas && table in db.rows && table in db.indexes && id in db.rows[table]
    requires var cleared := RemoveRow(Names(db.schemas[table]), db.indexes[table], id, db.rows[table][id]);
             cleared.Some? && AddRow(Names(db.schemas[table]), cleared.value, id, row) == Some(indexes)
    ensures ApplyUndo(db, RestoreRow(table, id, row)) ==
            Some(Db(db.schemas, db.rows[table := Put(db.rows[table], id, row)], db.indexes[table := indexes],
                    RaisedCounters(db.counters, table, id)))
  {
  }

  /** Changing one table of a right store to something right keeps the store right. */
  lemma ChangedTableOk(db: Db, table: string, rows: Rows, indexes: Indexes, counters: map<string, nat>)
    requires StoreOk(db) && table in db.schemas
    requires counters.Keys == db.counters.Keys && forall t :: t in counters && t != table ==>
             counters[t] == db.counters[t]
    requires TableOk(db.schemas[table], rows, indexes, counters[table])
    ensures StoreOk(Db(db.schemas, db.rows[table := rows], db.indexes[table := indexes], counters))
  {
    hide TableOk;
    var db' := Db(db.schemas, db.rows[table := rows], db.indexes[table := indexes], counters);
    forall t | t in db'.schemas
      ensures TableAt(db', t)
    {
      assert TableAt(db, t);
    }
  }

  /** Rows that agree on the row-id column agree on the primary key. */
  lemma SameRowIdSameKey(schema: Schema, a: Row, b: Row, i: nat)
    requires RowIdColumn(schema) == Some(i) && i < |a| && i < |b| && a[i] == b[i]
    ensures SamePrimaryKey(schema, a, b) && HasPrimaryKey(schema)
  {
    forall j | 0 <= j < |schema.columns| && schema.columns[j].primaryKey ensures j == i {
      assert IsKeyColumn(schema, j);
    }
  }

  // ----- Insert ------------------------------------------------------------

  /** The id an insert draws belongs to no stored row, and the id discipline survives. */
  lemma PlacementFresh(db: Db, table: string, row: Row)
    requires StoreOk(db) && table in db.schemas && |row| == |db.schemas[table].columns|
    requires PlaceInsert(db, table, db.schemas[table], row).0.Ok?
    ensures var p := PlaceInsert(db, table, db.schemas[table], row).0.value;
            |p.row| == |row| && p.counters == PlaceInsert(db, table, db.schemas[table], row).1 &&
            (RowIdColumn(db.schemas[table]).None? ==> p.row == row && p.id == db.counters[table]) &&
            (RowIdColumn(db.schemas[table]).Some? ==>
                p.id <= MAX_I64 && p.row[RowIdColumn(db.schemas[table]).value] == Integer(p.id)) &&
            (PrimaryKeyFree(db.schemas[table], p.row, db.rows[table], None) ==>
              p.id !in db.rows[table] && IdsOk(db.schemas[table], db.rows[table][p.id := p.row], p.counters[table]))
  {
    var schema, rows: Rows := db.schemas[table], db.rows[table];
    var p := PlaceInsert(db, table, schema, row).0.value;
    assert TableAt(db, table);
    match RowIdColumn(schema)
    case None =>
    case Some(i) =>
      assert p.row[i] == Integer(p.id);
      if p.id in rows {
        assert RowError(schema, rows[p.id]).None?;
        SameRowIdSameKey(schema, rows[p.id], p.row, i);
      }
  }

  lemma InsertedTableOk(schema: Schema, rows: Rows, indexes: Indexes, counter: nat, counter': nat, id: nat, row: Row)
    requires TableOk(schema, rows, indexes, counter)
    requires id !in rows && RowError(schema, row).None? && PrimaryKeyFree(schema, row, rows, None)
    requires IdsOk(schema, rows[id := row], counter')
    requires forall n :: n in indexes ==> Accepts(Names(schema), indexes[n], rows, row)
    ensures AddRow(Names(schema), indexes, id, row).Some?
    ensures TableOk(schema, rows[id := row], AddRow(Names(schema), indexes, id, row).value, counter')
  {
    AddRowOk(Names(schema), indexes, rows, id, row);
    var rows': Rows := rows[id := row];
    if HasPrimaryKey(schema) {
      forall a, b | a in rows' && b in rows' && a != b ensures !SamePrimaryKey(schema, rows'[a], rows'[b]) {
        if a == id {
          assert !SamePrimaryKey(schema, rows[b], row);
        } else if b == id {
          assert !SamePrimaryKey(schema, rows[a], row);
        }
      }
    }
  }

  /** Taking back an insertion: the indexes return to what they were. */
  lemma RemoveAddedRow(names: seq<string>, indexes: Indexes, rows: Rows, id: nat, row: Row)
    requires IndexesOk(names, indexes, rows) && id !in rows && |row| == |names|
    requires forall n :: n in indexes ==> Accepts(names, indexes[n], rows, row)
    ensures AddRow(names, indexes, id, row).Some?
    ensures RemoveRow(names, AddRow(names, indexes, id, row).value, id, row) == Some(indexes)
  {
    AddRowOk(names, indexes, rows, id, row);
    var added := AddRow(names, indexes, id, row).value;
    RemoveRowOk(names, added, rows[id := row], id);
    assert rows[id := row] - {id} == rows;
    IndexesDetermined(names, RemoveRow(names, added, id, row).value, indexes, rows);
  }

  /** Every index takes the row. */
  predicate AllAddable(names: seq<string>, indexes: Indexes, row: Row) {
    forall n | n in indexes :: Addable(names, indexes[n], row)
  }

  lemma AllAccept(names: seq<string>, indexes: Indexes, rows: Rows, row: Row)
    requires IndexesOk(names, indexes, rows) && |row| == |names| && AllAddable(names, indexes, row)
    ensures forall n :: n in indexes ==> Accepts(names, indexes[n], rows, row)
  {
    forall n | n in indexes ensures Accepts(names, indexes[n], rows, row) {
      assert IndexOk(names, indexes[n], rows);
      AddableIff(names, indexes[n], rows, row);
    }
  }

  /** Storing a validated row on a right store when every index takes it: it succeeds, leaves a right
      store, and undoing it brings the rows and indexes back. */
  lemma StoreInsertedOk(db: Db, table: string, id: nat, row: Row, order: seq<string>)
    requires StoreOk(db) && table in db.schemas
    requires id !in db.rows[table] && RowError(db.schemas[table], row).None?
    requires PrimaryKeyFree(db.schemas[table], row, db.rows[table], None)
    requires AllAddable(Names(db.schemas[table]), db.indexes[table], row)
    requires IdsOk(db.schemas[table], db.rows[table][id := row], db.counters[table]) &&
             Lists(order, db.indexes[table].Keys)
    ensures var (e, inserted) := StoreInserted(db, table, Names(db.schemas[table]), id, row, order);
            inserted == Some(id) && e.error.None? && e.undo == [UndoInsert(table, id)] &&
            e.db.schemas == db.schemas && e.db.counters == db.counters &&
            e.db.rows == db.rows[table := Put(db.rows[table], id, row)] &&
            StoreOk(e.db) && Unwind(e.db, e.undo) == Some(db)
  {
    var schema, rows: Rows, indexes := db.schemas[table], db.rows[table], db.indexes[table];
    assert TableAt(db, table);
    AllAccept(Names(schema), indexes, rows, row);
    FileInOrderIs(Names(schema), indexes, id, row, order);
    InsertedTableOk(schema, rows, indexes, db.counters[table], db.counters[table], id, row);
    var indexes' := AddRow(Names(schema), indexes, id, row).value;
    ChangedTableOk(db, table, rows[id := row], indexes', db.counters);
    var db' := Db(db.schemas, db.rows[table := rows[id := row]], db.indexes[table := indexes'], db.counters);
    UnwindOne(db', UndoInsert(table, id));
    RemoveAddedRow(Names(schema), indexes, rows, id, row);
    ApplyUndoInsert(db', table, id, indexes);
    assert rows[id := row] - {id} == rows;
    PutBack(db.rows, table, rows[id := row]);
    PutBack(db.indexes, table, indexes');
  }

  lemma InBucket(keys: map<nat, Key>, id: nat)
    requires id in keys
    ensures keys[id] in Invert(keys) && id in Invert(keys)[keys[id]]
  {
    assert keys[id] in keys.Values;
  }

  /** When an index refuses a row that passed the checks, the row stays in the table, no index knows
      it, and nothing is logged that would take it out. */
  lemma StoreInsertedLeaks(db: Db, table: string, id: nat, row: Row, order: seq<string>)
    requires StoreOk(db) && table in db.schemas && id !in db.rows[table]
    requires !AllAddable(Names(db.schemas[table]), db.indexes[table], row) && Lists(order, db.indexes[table].Keys)
    ensures var (e, inserted) := StoreInserted(db, table, Names(db.schemas[table]), id, row, order);
            inserted.None? && e.error.Some? && e.undo == [] &&
            !StoreOk(e.db) && !Reverts(db, e)
  {
    var names, rows: Rows, indexes := Names(db.schemas[table]), db.rows[table], db.indexes[table];
    var n :| n in indexes && !Addable(names, indexes[n], row);
    RefusedEffect(db, table, names, n, id, row, order);
    var e := StoreInserted(db, table, names, id, row, order).0;
    hide StoreInserted, Addable, RowError;
    assert id in e.db.rows[table];
    KeptNothing(db, e);
    if StoreOk(e.db) {
      assert IndexOk(names, indexes[n], rows) by { assert TableAt(db, table); }
      assert IndexOk(names, indexes[n], rows[id := row]) by { assert TableAt(e.db, table); }
      NotBoth(names, indexes[n], rows, id, row);
    }
  }

  /** Storing a row that an index refuses: the row is in the table, that index is as it was, and nothing
      is logged. */
  lemma RefusedEffect(db: Db, table: string, names: seq<string>, n: string, id: nat, row: Row, order: seq<string>)
    requires table in db.rows && table in db.indexes && Lists(order, db.indexes[table].Keys)
    requires n in db.indexes[table] && !Addable(names, db.indexes[table][n], row)
    ensures var (e, inserted) := StoreInserted(db, table, names, id, row, order);
            inserted.None? && e.error.Some? && e.undo == [] &&
            e.db.schemas == db.schemas && e.db.counters == db.counters &&
            e.db.rows == db.rows[table := Put(db.rows[table], id, row)] &&
            e.db.indexes.Keys == db.indexes.Keys && n in e.db.indexes[table] &&
                e.db.indexes[table][n] == db.indexes[table][n]
  {
    FilesAll(names, db.indexes[table], id, row, order);
    assert n in order && !Addable(names, db.indexes[table][n], row);
    assert FileInOrder(names, db.indexes[table], id, row, order).1.Some?;
    hide FileInOrder, Addable;
  }

  lemma KeptRow(db: Db, drawn: Db, table: string, id: nat, row: Row, order: seq<string>)
    requires StoreOk(drawn) && SameUpToCounters(drawn, db) && table in db.schemas && id !in db.rows[table]
    requires !AllAddable(Names(db.schemas[table]), db.indexes[table], row) && Lists(order, db.indexes[table].Keys)
    ensures !Reverts(db, StoreInserted(drawn, table, Names(db.schemas[table]), id, row, order).0)
  {
    var names, indexes := Names(db.schemas[table]), db.indexes[table];
    var n :| n in indexes && !Addable(names, indexes[n], row);
    RefusedEffect(drawn, table, names, n, id, row, order);
    var e := StoreInserted(drawn, table, names, id, row, order).0;
    assert id in e.db.rows[table];
    KeptNothing(db, e);
  }

  lemma KeptNothing(db: Db, e: Effect)
    requires e.undo == [] && e.db.rows != db.rows
    ensures !Reverts(db, e)
  {
    UnwindNothing(e.db);
  }

  /** An index cannot be right both with and without a row. */
  lemma NotBoth(names: seq<string>, index: IndexState, rows: Rows, id: nat, row: Row)
    requires id !in rows && IndexOk(names, index, rows)
    ensures !IndexOk(names, index, rows[id := row])
  {
    InBucket(KeyMap(names, index.meta.columns, rows[id := row]), id);
  }

  /** The row as an insert stores it: the caller's, with the id in its row-id column. */
  function WithId(schema: Schema, row: Row, id: nat): Row {
    match RowIdColumn(schema)
    case None => row
    case Some(i) => if i < |row| && id <= MAX_I64 then row[i := Integer(id)] else row
  }

  /** The pre-check of an insert passes over indexes taken for the primary key's own. The insert is
      clear when they, too, take a row that passes all checks. */
  predicate InsertClear(env: Env, db: Db, table: string, row: Row) {
    table in db.schemas && |row| == |db.schemas[table].columns| &&
        PlaceInsert(db, table, db.schemas[table], row).0.Ok? ==>
      var schema, row' := db.schemas[table], PlaceInsert(db, table, db.schemas[table], row).0.value.row;
      InsertPasses(env, schema, table, RowsOf(db, table), IndexesOf(db, table), row') ==>
        SkippedTake(schema, table, IndexesOf(db, table), row')
  }

  /** The row passes every check of `insert_row`. */
  predicate InsertPasses(env: Env, schema: Schema, table: string, rows: Rows, indexes: Indexes, row: Row) {
    && RowError(schema, row).None?
    && (env.ignoreChecks || CheckError(env, schema, row).None?)
    && PrimaryKeyFree(schema, row, rows, None)
    && UniqueKeysFree(schema, table, indexes, row)
  }

  lemma PassesIff(env: Env, schema: Schema, table: string, rows: Rows, indexes: Indexes, row: Row, order: seq<string>)
    requires Lists(order, indexes.Keys)
    ensures InsertError(env, schema, table, rows, indexes, row, order).None? <==>
            InsertPasses(env, schema, table, rows, indexes, row)
  {
  }

  predicate SkippedTake(schema: Schema, table: string, indexes: Indexes, row: Row) {
    forall n | n in indexes && BacksPrimaryKey(schema, indexes[n].meta, table) ::
        Addable(Names(schema), indexes[n], row)
  }

  /** With an aligned primary key and existing columns every insert is clear: no index refuses a row
      that has passed the checks. */
  lemma AlignedInsertClear(env: Env, db: Db, table: string, row: Row)
    requires StoreOk(db) && (table in db.schemas ==> AlignedTable(db.schemas[table], db.indexes[table]))
    ensures InsertClear(env, db, table, row)
  {
    if !InsertClear(env, db, table, row) {
      var schema, indexes := db.schemas[table], db.indexes[table];
      var row' := PlaceInsert(db, table, schema, row).0.value.row;
      var n :| n in indexes && BacksPrimaryKey(schema, indexes[n].meta, table) &&
          !Addable(Names(schema), indexes[n], row');
      assert TableAt(db, table);
      assert IndexOk(Names(schema), indexes[n], db.rows[table]);
      SkippedAddable(schema, table, indexes[n], db.rows[table], row');
    }
  }

  /** The state a caller keeps by naming existing columns in indexes and agreeing keys in schemas. */
  ghost predicate AlignedTable(schema: Schema, indexes: Indexes) {
    KeyAligned(schema) && forall n :: n in indexes ==> ColumnsKnown(Names(schema), indexes[n].meta.columns)
  }

  /** `insert_row` on a right store: it leaves a right store, and its records take it back, if and only
      if it is clear; and then it adds exactly the caller's row, under an id no row had, or nothing. */
  lemma InsertPreserves(env: Env, db: Db, table: string, row: Row, order: seq<string>)
    requires StoreOk(db) && Lists(order, IndexesOf(db, table).Keys)
    ensures var (e, id) := InsertRow(env, db, table, row, order);
            (StoreOk(e.db) <==> InsertClear(env, db, table, row)) &&
                (Reverts(db, e) <==> InsertClear(env, db, table, row)) &&
            (e.error.None? <==> id.Some?) &&
            (id.Some? ==>
              table in db.schemas && id.value !in db.rows[table] && e.undo == [UndoInsert(table, id.value)] &&
              e.db.schemas == db.schemas &&
              e.db.rows == db.rows[table := Put(db.rows[table], id.value, WithId(db.schemas[table], row, id.value))]) &&
            (id.None? ==> e.undo == [] && (InsertClear(env, db, table, row) ==> SameUpToCounters(e.db, db)))
  {
    var (e, id) := InsertRow(env, db, table, row, order);
    hide InsertError, StoreInserted, InsertPasses, SkippedTake, Unwind;
    UnwindNothing(e.db);
    if table in db.schemas && |row| == |db.schemas[table].columns| {
      var schema, rows := db.schemas[table], db.rows[table];
      var (placed, counters) := PlaceInsert(db, table, schema, row);
      var drawn := db.(counters := counters);
      assert SameUpToCounters(drawn, db);
      AdvancedCountersOk(drawn, db);
      if placed.Ok? { PassesIff(env, schema, table, rows, db.indexes[table], placed.value.row, order); }
      if placed.Ok? && InsertError(env, schema, table, rows, db.indexes[table], placed.value.row, order).None? {
        PlacementFresh(db, table, row);
        InsertedRowStep(db, drawn, table, placed.value.id, placed.value.row, order);
        assert InsertClear(env, db, table, row) <==> SkippedTake(schema, table, db.indexes[table], placed.value.row);
        assert placed.value.row == WithId(schema, row, placed.value.id);
      } else {
        assert InsertClear(env, db, table, row);
      }
    }
  }

  lemma InsertedRowStep(db: Db, drawn: Db, table: string, id: nat, row: Row, order: seq<string>)
    requires StoreOk(db) && StoreOk(drawn) && SameUpToCounters(drawn, db) && table in db.schemas &&
             id !in db.rows[table]
    requires RowError(db.schemas[table], row).None? && PrimaryKeyFree(db.schemas[table], row, db.rows[table], None)
    requires UniqueKeysFree(db.schemas[table], table, db.indexes[table], row) && Lists(order, db.indexes[table].Keys)
    requires IdsOk(db.schemas[table], db.rows[table][id := row], drawn.counters[table])
    ensures var (e, inserted) := StoreInserted(drawn, table, Names(db.schemas[table]), id, row, order);
            var clear := SkippedTake(db.schemas[table], table, db.indexes[table], row);
            (StoreOk(e.db) <==> clear) && (Reverts(db, e) <==> clear) &&
            (clear ==>
              inserted == Some(id) && e.error.None? && e.undo == [UndoInsert(table, id)] &&
              e.db.schemas == db.schemas && e.db.rows == db.rows[table := Put(db.rows[table], id, row)]) &&
            (!clear ==> inserted.None? && e.error.Some? && e.undo == [])
  {
    if SkippedTake(db.schemas[table], table, db.indexes[table], row) {
      StoreInsertedOk(drawn, table, id, row, order);
    } else {
      StoreInsertedLeaks(drawn, table, id, row, order);
      KeptRow(db, drawn, table, id, row, order);
    }
  }

  /** Once the pre-checks pass, an insert into a right store gets through the indexes if and only if
      those that the pre-check passes over take the row. */
  lemma InsertChecksSuffice(env: Env, db: Db, table: string, row: Row, order: seq<string>)
    requires StoreOk(db) && table in db.schemas && |row| == |db.schemas[table].columns| &&
             Lists(order, db.indexes[table].Keys)
    requires PlaceInsert(db, table, db.schemas[table], row).0.Ok?
    requires var p := PlaceInsert(db, table, db.schemas[table], row).0.value;
             InsertError(env, db.schemas[table], table, db.rows[table], db.indexes[table], p.row, order).None?
    ensures var p := PlaceInsert(db, table, db.schemas[table], row).0.value;
            var clear := SkippedTake(db.schemas[table], table, db.indexes[table], p.row);
            (AddRow(Names(db.schemas[table]), db.indexes[table], p.id, p.row).Some? <==> clear) &&
            InsertRow(env, db, table, row, order).1 == if clear then Some(p.id) else None
  {
    var (placed, counters) := PlaceInsert(db, table, db.schemas[table], row);
    var p, drawn := placed.value, db.(counters := counters);
    InsertIsStore(env, db, table, row, order);
    PlacementFresh(db, table, row);
    DrawnOk(db, table, row);
    hide InsertRow, InsertError, StoreInserted, PlaceInsert, UniqueKeysFree, FileInOrder, StoreOk, SameUpToCounters;
    InsertedRowStep(db, drawn, table, p.id, p.row, order);
    FileInOrderIs(Names(db.schemas[table]), db.indexes[table], p.id, p.row, order);
  }

  lemma DrawnOk(db: Db, table: string, row: Row)
    requires StoreOk(db) && table in db.schemas && |row| == |db.schemas[table].columns|
    ensures var drawn := db.(counters := PlaceInsert(db, table, db.schemas[table], row).1);
            SameUpToCounters(drawn, db) && StoreOk(drawn)
  {
    var drawn := db.(counters := PlaceInsert(db, table, db.schemas[table], row).1);
    assert SameUpToCounters(drawn, db);
    AdvancedCountersOk(drawn, db);
  }

  lemma InsertIsStore(env: Env, db: Db, table: string, row: Row, order: seq<string>)
    requires KeysAgree(db) && table in db.schemas && |row| == |db.schemas[table].columns|
    requires Lists(order, db.indexes[table].Keys) && PlaceInsert(db, table, db.schemas[table], row).0.Ok?
    requires var p := PlaceInsert(db, table, db.schemas[table], row).0.value;
             InsertError(env, db.schemas[table], table, db.rows[table], db.indexes[table], p.row, order).None?
    ensures var (placed, counters) := PlaceInsert(db, table, db.schemas[table], row);
            InsertRow(env, db, table, row, order) ==
            StoreInserted(db.(counters := counters), table, Names(db.schemas[table]), placed.value.id, placed.value.row,
                order)
    ensures var p := PlaceInsert(db, table, db.schemas[table], row).0.value;
            UniqueKeysFree(db.schemas[table], table, db.indexes[table], p.row) &&
                RowError(db.schemas[table], p.row).None? &&
            PrimaryKeyFree(db.schemas[table], p.row, db.rows[table], None)
  {
  }

  // ----- Delete ------------------------------------------------------------

  lemma DeletedTableOk(schema: Schema, rows: Rows, indexes: Indexes, counter: nat, id: nat)
    requires TableOk(schema, rows, indexes, counter) && id in rows
    ensures RemoveRow(Names(schema), indexes, id, rows[id]).Some?
    ensures TableOk(schema, rows - {id}, RemoveRow(Names(schema), indexes, id, rows[id]).value, counter)
  {
    assert RowError(schema, rows[id]).None?;
    RemoveRowOk(Names(schema), indexes, rows, id);
    var rows': Rows := rows - {id};
    forall a | a in rows' ensures rows'[a] == rows[a] && RowError(schema, rows'[a]).None? {
    }
    if HasPrimaryKey(schema) {
      forall a, b | a in rows' && b in rows' && a != b ensures !SamePrimaryKey(schema, rows'[a], rows'[b]) {
        assert !SamePrimaryKey(schema, rows[a], rows[b]);
      }
    }
  }

  /** A key that had to be unique is free again once its row is out. */
  lemma RemovedKeysFree(names: seq<string>, indexes: Indexes, rows: Rows, id: nat)
    requires IndexesOk(names, indexes, rows) && id in rows && |rows[id]| == |names|
    ensures var cleared := RemoveRow(names, indexes, id, rows[id]);
            cleared.Some? && forall n :: n in cleared.value ==> Accepts(names, cleared.value[n], rows - {id}, rows[id])
  {
    RemoveRowOk(names, indexes, rows, id);
    var cleared := RemoveRow(names, indexes, id, rows[id]).value;
    forall n | n in cleared ensures Accepts(names, cleared[n], rows - {id}, rows[id]) {
      var columns := indexes[n].meta.columns;
      var keys := KeyMap(names, columns, rows);
      forall a | a in rows - {id} && EnforcesUnique(indexes[n].meta, keys[id])
        ensures KeyOf(names, columns, (rows - {id})[a]) != keys[id]
      {
        assert IndexOk(names, indexes[n], rows);
        assert !Clash(indexes[n].meta, keys, a, id);
      }
    }
  }

  /** Taking back a removal: the indexes return to what they were. */
  lemma AddRemovedRow(names: seq<string>, indexes: Indexes, rows: Rows, id: nat)
    requires IndexesOk(names, indexes, rows) && id in rows && |rows[id]| == |names|
    ensures RemoveRow(names, indexes, id, rows[id]).Some?
    ensures AddRow(names, RemoveRow(names, indexes, id, rows[id]).value, id, rows[id]) == Some(indexes)
  {
    RemoveRowOk(names, indexes, rows, id);
    RemovedKeysFree(names, indexes, rows, id);
    var cleared := RemoveRow(names, indexes, id, rows[id]).value;
    AddRowOk(names, cleared, rows - {id}, id, rows[id]);
    assert (rows - {id})[id := rows[id]] == rows;
    IndexesDetermined(names, AddRow(names, cleared, id, rows[id]).value, indexes, rows);
  }

  /** `delete_row` on a right store. */
  lemma DeletePreserves(db: Db, table: string, id: nat)
    requires StoreOk(db)
    ensures var e := DeleteRow(db, table, id);
            StoreOk(e.db) && Reverts(db, e) && e.error.None? && e.db.schemas == db.schemas &&
                e.db.counters == db.counters &&
            (id in RowsOf(db, table) ==> e.db.rows == db.rows[table := db.rows[table] - {id}])
  {
    if id in RowsOf(db, table) {
      DeleteStoredOk(db, table, id);
    } else {
      UnwindNothing(db);
    }
  }

  lemma DeleteStoredOk(db: Db, table: string, id: nat)
    requires StoreOk(db) && id in RowsOf(db, table)
    ensures var e := DeleteRow(db, table, id);
            e.error.None? && e.undo == [ReinsertRow(table, id, db.rows[table][id])] &&
            e.db.schemas == db.schemas && e.db.counters == db.counters &&
            e.db.rows == db.rows[table := db.rows[table] - {id}] &&
            StoreOk(e.db) && Unwind(e.db, e.undo) == Some(db.(counters := RaisedCounters(db.counters, table, id)))
  {
    var schema, rows: Rows, indexes := db.schemas[table], db.rows[table], db.indexes[table];
    assert TableAt(db, table);
    assert RowError(schema, rows[id]).None?;
    DeletedTableOk(schema, rows, indexes, db.counters[table], id);
    var cleared := RemoveRow(Names(schema), indexes, id, rows[id]).value;
    ChangedTableOk(db, table, rows - {id}, cleared, db.counters);
    var db' := Db(db.schemas, db.rows[table := rows - {id}], db.indexes[table := cleared], db.counters);
    UnwindOne(db', ReinsertRow(table, id, rows[id]));
    AddRemovedRow(Names(schema), indexes, rows, id);
    ApplyReinsertRow(db', table, id, rows[id], indexes);
    assert (rows - {id})[id := rows[id]] == rows;
    PutBack(db.rows, table, rows - {id});
    PutBack(db.indexes, table, cleared);
  }

  // ----- Update ------------------------------------------------------------

  /** The target id of an update is its own or one that no row has. */
  lemma UpdateTargetFree(schema: Schema, rows: Rows, indexes: Indexes, counter: nat, id: nat, row: Row)
    requires TableOk(schema, rows, indexes, counter) && id in rows && |row| == |schema.columns|
    requires PlaceUpdate(schema, id, row).Ok?
    ensures var (target, row') := PlaceUpdate(schema, id, row).value;
            |row'| == |row| &&
            (PrimaryKeyFree(schema, row', rows, Some(id)) ==>
              target !in rows - {id} &&
                  IdsOk(schema, (rows - {id})[target := row'], if counter > target then counter else target + 1))
  {
    var (target, row') := PlaceUpdate(schema, id, row).value;
    if PrimaryKeyFree(schema, row', rows, Some(id)) && RowIdColumn(schema).Some? {
      var i := RowIdColumn(schema).value;
      assert row'[i] == Integer(target);
      if target in rows - {id} {
        assert RowError(schema, rows[target]).None?;
        SameRowIdSameKey(schema, rows[target], row', i);
      }
    }
  }

  /** The pre-check of an update leaves every needed key free once the old row is out. */
  lemma UpdateKeysFree(names: seq<string>, indexes: Indexes, rows: Rows, id: nat, row: Row)
    requires IndexesOk(names, indexes, rows) && id in rows && |rows[id]| == |names| == |row|
    requires UniqueKeysFreeExcept(names, indexes, id, row)
    ensures var cleared := RemoveRow(names, indexes, id, rows[id]);
            cleared.Some? && forall n :: n in cleared.value ==> Accepts(names, cleared.value[n], rows - {id}, row)
  {
    RemoveRowOk(names, indexes, rows, id);
    var cleared := RemoveRow(names, indexes, id, rows[id]).value;
    forall n | n in cleared ensures Accepts(names, cleared[n], rows - {id}, row) {
      var index := indexes[n];
      assert IndexOk(names, index, rows);
      var keys, key := KeyMap(names, index.meta.columns, rows), KeyOf(names, index.meta.columns, row);
      ProjectsWhenKnown(names, index.meta.columns, row);
      forall a | a in rows - {id} && EnforcesUnique(index.meta, key)
        ensures KeyOf(names, index.meta.columns, (rows - {id})[a]) != key
      {
        InBucket(keys, a);
        assert a in index.entries[keys[a]] - {id};
      }
    }
  }

  lemma UpdatedTableOk(schema: Schema, rows: Rows, indexes: Indexes, counter: nat, counter': nat, id: nat, target: nat,
      row: Row)
    requires TableOk(schema, rows, indexes, counter) && id in rows && target !in rows - {id}
    requires RowError(schema, row).None? && PrimaryKeyFree(schema, row, rows, Some(id))
    requires UniqueKeysFreeExcept(Names(schema), indexes, id, row)
    requires IdsOk(schema, (rows - {id})[target := row], counter')
    ensures RemoveRow(Names(schema), indexes, id, rows[id]).Some?
    ensures var cleared := RemoveRow(Names(schema), indexes, id, rows[id]).value;
            var added := AddRow(Names(schema), cleared, target, row);
            added.Some? && TableOk(schema, (rows - {id})[target := row], added.value, counter') &&
            added.value.Keys == indexes.Keys && forall n :: n in indexes ==> added.value[n].meta == indexes[n].meta
  {
    assert RowError(schema, rows[id]).None?;
    DeletedTableOk(schema, rows, indexes, counter, id);
    UpdateKeysFree(Names(schema), indexes, rows, id, row);
    var cleared := RemoveRow(Names(schema), indexes, id, rows[id]).value;
    forall a | a in rows - {id} && HasPrimaryKey(schema) ensures !SamePrimaryKey(schema, (rows - {id})[a], row) {
    }
    InsertedTableOk(schema, rows - {id}, cleared, counter, counter', target, row);
  }

  /** An update that keeps the row id keeps it for the model's callers to check: `target == id`. */
  predicate KeepsId(db: Db, table: string, id: nat, row: Row) {
    table in db.schemas && |row| == |db.schemas[table].columns| && id in RowsOf(db, table) ==>
      var placed := PlaceUpdate(db.schemas[table], id, row);
      placed.Ok? ==> placed.value.0 == id
  }

  /** Whether the update gets past its checks and changes the row. */
  predicate UpdateChanges(env: Env, db: Db, table: string, id: nat, row: Row) {
    UpdateRow(env, db, table, id, row).undo != []
  }

  /** Storing a validated update on a right store: it succeeds and leaves a right store, so the
      duplicate-row-id and index failures at its end cannot happen. */
  lemma StoreUpdatedOk(db: Db, table: string, id: nat, target: nat, row: Row)
    requires StoreOk(db) && table in db.schemas && id in db.rows[table] && target !in db.rows[table] - {id}
    requires RowError(db.schemas[table], row).None? && PrimaryKeyFree(db.schemas[table], row, db.rows[table], Some(id))
    requires UniqueKeysFreeExcept(Names(db.schemas[table]), db.indexes[table], id, row)
    requires IdsOk(db.schemas[table], (db.rows[table] - {id})[target := row],
             RaisedCounters(db.counters, table, target)[table])
    ensures var e := StoreUpdated(db, table, Names(db.schemas[table]), id, target, row);
            e.error.None? && e.undo == [RestoreRow(table, id, db.rows[table][id])] &&
            e.db.schemas == db.schemas && e.db.counters == RaisedCounters(db.counters, table, target) &&
            e.db.rows == db.rows[table := (db.rows[table] - {id})[target := row]] &&
            StoreOk(e.db) && SameIndexMetas(db, e.db, table)
  {
    var schema, rows: Rows, indexes := db.schemas[table], db.rows[table], db.indexes[table];
    assert TableAt(db, table);
    var counters := RaisedCounters(db.counters, table, target);
    UpdatedTableOk(schema, rows, indexes, db.counters[table], counters[table], id, target, row);
    var cleared := RemoveRow(Names(schema), indexes, id, rows[id]).value;
    var indexes' := AddRow(Names(schema), cleared, target, row).value;
    ChangedTableOk(db, table, (rows - {id})[target := row], indexes', counters);
  }

  /** Only the entries of one table's indexes differ. */
  ghost predicate SameIndexMetas(a: Db, b: Db, table: string)
    requires table in a.indexes
  {
    && b.indexes.Keys == a.indexes.Keys && b.indexes == a.indexes[table := b.indexes[table]]
    && b.indexes[table].Keys == a.indexes[table].Keys
    && forall n :: n in a.indexes[table] ==> b.indexes[table][n].meta == a.indexes[table][n].meta
  }

  /** What a changing update does to a right store. */
  ghost predicate UpdateStored(db: Db, e: Effect, table: string, id: nat, row: Row) {
    && KeysAgree(db) && table in db.schemas && id in db.rows[table] && |row| == |db.schemas[table].columns|
    && PlaceUpdate(db.schemas[table], id, row).Ok?
    && var (target, row') := PlaceUpdate(db.schemas[table], id, row).value;
    && target !in db.rows[table] - {id}
    && e.error.None? && e.undo == [RestoreRow(table, id, db.rows[table][id])]
    && e.db.schemas == db.schemas && e.db.counters == RaisedCounters(db.counters, table, target)
    && e.db.rows == db.rows[table := (db.rows[table] - {id})[target := row']]
    && SameIndexMetas(db, e.db, table)
  }

  /** `update_row` on a right store: either nothing changes, or the row moves to its target id, which
      no other row has. Either way the store stays right. */
  lemma UpdateKeepsStoreOk(env: Env, db: Db, table: string, id: nat, row: Row)
    requires StoreOk(db)
    ensures var e := UpdateRow(env, db, table, id, row);
            StoreOk(e.db) &&
            (UpdateChanges(env, db, table, id, row) ==> UpdateStored(db, e, table, id, row)) &&
            (!UpdateChanges(env, db, table, id, row) ==> e.db == db)
  {
    if table in db.schemas && |row| == |db.schemas[table].columns| && id in db.rows[table] &&
        PlaceUpdate(db.schemas[table], id, row).Ok? {
      var schema, rows, indexes := db.schemas[table], db.rows[table], db.indexes[table];
      var (target, row') := PlaceUpdate(schema, id, row).value;
      assert TableAt(db, table);
      UpdateTargetFree(schema, rows, indexes, db.counters[table], id, row);
      if UpdateError(env, schema, rows, indexes, id, row').None? {
        StoreUpdatedOk(db, table, id, target, row');
      }
    }
  }

  /** Once the pre-checks pass, an update of a right store succeeds. */
  lemma UpdateChecksSuffice(env: Env, db: Db, table: string, id: nat, row: Row)
    requires StoreOk(db) && table in db.schemas && |row| == |db.schemas[table].columns| && id in db.rows[table]
    requires PlaceUpdate(db.schemas[table], id, row).Ok?
    requires UpdateError(env, db.schemas[table], db.rows[table], db.indexes[table], id,
             PlaceUpdate(db.schemas[table], id, row).value.1).None?
    ensures var (target, row') := PlaceUpdate(db.schemas[table], id, row).value;
            target !in db.rows[table] - {id} &&
            var cleared := RemoveRow(Names(db.schemas[table]), db.indexes[table], id, db.rows[table][id]);
            cleared.Some? && AddRow(Names(db.schemas[table]), cleared.value, target, row').Some?
  {
    var schema, rows, indexes := db.schemas[table], db.rows[table], db.indexes[table];
    var (target, row') := PlaceUpdate(schema, id, row).value;
    assert TableAt(db, table);
    UpdateTargetFree(schema, rows, indexes, db.counters[table], id, row);
    UpdatedTableOk(schema, rows, indexes, db.counters[table], RaisedCounters(db.counters, table, target)[table], id,
        target, row');
  }

  lemma RestoredIndexes(names: seq<string>, indexes: Indexes, indexes': Indexes, rows: Rows, rows': Rows, id: nat)
    requires IndexesOk(names, indexes, rows) && IndexesOk(names, indexes', rows')
    requires indexes'.Keys == indexes.Keys && forall n :: n in indexes ==> indexes'[n].meta == indexes[n].meta
    requires id in rows && id in rows' && |rows[id]| == |names| == |rows'[id]| && rows' == rows[id := rows'[id]]
    ensures var cleared := RemoveRow(names, indexes', id, rows'[id]);
            cleared.Some? && AddRow(names, cleared.value, id, rows[id]) == Some(indexes)
  {
    RemoveRowOk(names, indexes', rows', id);
    RemoveRowOk(names, indexes, rows, id);
    var cleared := RemoveRow(names, indexes', id, rows'[id]).value;
    assert rows' - {id} == rows - {id};
    IndexesDetermined(names, cleared, RemoveRow(names, indexes, id, rows[id]).value, rows - {id});
    AddRemovedRow(names, indexes, rows, id);
  }

  /** Undoing an update that kept its row id restores the row and every index. */
  lemma UpdateReverts(env: Env, db: Db, table: string, id: nat, row: Row)
    requires StoreOk(db) && KeepsId(db, table, id, row)
    ensures Reverts(db, UpdateRow(env, db, table, id, row))
  {
    var e := UpdateRow(env, db, table, id, row);
    UpdateKeepsStoreOk(env, db, table, id, row);
    if UpdateChanges(env, db, table, id, row) {
      var (target, row') := PlaceUpdate(db.schemas[table], id, row).value;
      UpdateStoredReverts(db, e, table, id, row');
    } else {
      UnwindNothing(e.db);
    }
  }

  lemma UpdateStoredReverts(db: Db, e: Effect, table: string, id: nat, row: Row)
    requires StoreOk(db) && StoreOk(e.db) && table in db.schemas && id in db.rows[table]
    requires e.undo == [RestoreRow(table, id, db.rows[table][id])]
    requires e.db.schemas == db.schemas && e.db.counters == RaisedCounters(db.counters, table, id)
    requires e.db.rows == db.rows[table := (db.rows[table] - {id})[id := row]] && SameIndexMetas(db, e.db, table)
    ensures Reverts(db, e)
  {
    hide RemoveRow, AddRow, Unwind, ApplyUndo;
    var schema, rows: Rows, rows': Rows := db.schemas[table], db.rows[table], e.db.rows[table];
    assert IndexesOk(Names(schema), e.db.indexes[table], rows') && |rows'[id]| == |Names(schema)| by {
      assert TableAt(e.db, table);
      assert RowError(schema, rows'[id]).None?;
    }
    assert IndexesOk(Names(schema), db.indexes[table], rows) && |rows[id]| == |Names(schema)| by {
      assert TableAt(db, table);
      assert RowError(schema, rows[id]).None?;
    }
    assert rows' == rows[id := row];
    UnwindOne(e.db, RestoreRow(table, id, rows[id]));
    RestoredIndexes(Names(schema), db.indexes[table], e.db.indexes[table], rows, rows', id);
    PutBack(rows, id, row);
    PutBack(db.rows, table, rows');
    PutBack(db.indexes, table, e.db.indexes[table]);
    ApplyRestoreRow(e.db, table, id, rows[id], db.indexes[table]);
  }

  lemma MovedRowStays(db: Db, e: Effect, table: string, id: nat, row: Row)
    requires UpdateStored(db, e, table, id, row) && PlaceUpdate(db.schemas[table], id, row).value.0 != id
    ensures !Reverts(db, e)
  {
    var target := PlaceUpdate(db.schemas[table], id, row).value.0;
    UnwindOne(e.db, e.undo[0]);
    var r := ApplyUndo(e.db, e.undo[0]);
    if r.Some? {
      assert target in r.value.rows[table];
      assert target !in db.rows[table];
    }
  }

  /** Undoing a changing update works exactly when the update kept the row's id: the record names
      the old id only, so after a move the row stays under its new id whatever the replay does. */
  lemma UpdateRevertsIff(env: Env, db: Db, table: string, id: nat, row: Row)
    requires StoreOk(db) && UpdateChanges(env, db, table, id, row)
    ensures Reverts(db, UpdateRow(env, db, table, id, row)) <==> KeepsId(db, table, id, row)
  {
    UpdateKeepsStoreOk(env, db, table, id, row);
    if KeepsId(db, table, id, row) {
      UpdateReverts(env, db, table, id, row);
    } else {
      MovedRowStays(db, UpdateRow(env, db, table, id, row), table, id, row);
    }
  }
}
