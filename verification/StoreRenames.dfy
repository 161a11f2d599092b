/** Renaming a column or a table, with the foreign keys of every table that refers to it, keeps the
    store right and logs what undoes it. */
module StoreRenames {
  import opened Common
  import opened Values
  import opened Schemas
  import opened SchemaChanges
  import opened StoreSpec
  import opened StoreInvariant
  import opened StoreRows
  import opened StoreCatalog
  import opened StoreColumns

  /** Replaying a concatenation replays its end first, then its front. */
  lemma {:induction false} UnwindAppend(db: Db, a: seq<UndoOp>, b: seq<UndoOp>)
    ensures Unwind(db, a + b) == (if Unwind(db, b).None? then None else Unwind(Unwind(db, b).value, a))
    decreases |b|
  {
    if b == [] {
      assert a + b == a;
    } else {
      var last := b[|b| - 1];
      assert (a + b)[|a + b| - 1] == last;
      assert (a + b)[..|a + b| - 1] == a + b[..|b| - 1];
      if ApplyUndo(db, last).Some? {
        UnwindAppend(ApplyUndo(db, last).value, a, b[..|b| - 1]);
      }
    }
  }

  // ----- Referring tables --------------------------------------------------

  lemma ChangeRefsLayout(schema: Schema, change: RefChange)
    ensures SameLayout(schema, ChangeRefs(schema, change)) && ChangeRefs(schema, change).name == schema.name
  {
  }

  lemma ChangedRefsOk(db: Db, t: string, change: RefChange)
    requires StoreOk(db) && t in db.schemas
    ensures StoreOk(db.(schemas := db.schemas[t := ChangeRefs(db.schemas[t], change)]))
  {
    assert TableAt(db, t);
    ChangeRefsLayout(db.schemas[t], change);
    LayoutKeepsTableOk(db.schemas[t], ChangeRefs(db.schemas[t], change), db.rows[t], db.indexes[t], db.counters[t]);
    ReplacedTableOk(db, t, ChangeRefs(db.schemas[t], change), db.rows[t], db.indexes[t]);
    assert db.rows[t := db.rows[t]] == db.rows && db.indexes[t := db.indexes[t]] == db.indexes;
  }

  lemma {:induction false} ReferrersOk(db: Db, order: seq<string>, change: RefChange)
    requires StoreOk(db)
    ensures StoreOk(ChangeReferrers(db, order, change).db)
    ensures var e := ChangeReferrers(db, order, change);
            e.error.None? && e.db.schemas.Keys == db.schemas.Keys && forall t :: t in db.schemas && t !in order ==>
                e.db.schemas[t] == db.schemas[t]
    decreases |order|
  {
    if order != [] {
      if order[0] in db.schemas {
        ChangedRefsOk(db, order[0], change);
        ReferrersOk(db.(schemas := db.schemas[order[0] := ChangeRefs(db.schemas[order[0]], change)]), order[1..],
            change);
      } else {
        ReferrersOk(db, order[1..], change);
      }
    }
  }

  function Patch(db: Db, table: string, schema: Schema): Db { db.(schemas := db.schemas[table := schema]) }

  ghost predicate Named(db: Db) { KeysAgree(db) && forall t :: t in db.schemas ==> db.schemas[t].name == t }

  lemma StoreNamed(db: Db)
    requires StoreOk(db)
    ensures Named(db)
  {
    forall t | t in db.schemas ensures db.schemas[t].name == t { assert TableAt(db, t); }
  }

  lemma SnapshotPatched(db: Db, t: string, changed: Schema, table: string, schema: Schema)
    requires Named(db) && t in db.schemas && t != table && table in db.schemas
    ensures ApplyUndo(Patch(db.(schemas := db.schemas[t := changed]), table, schema), Snapshot(db, t)) ==
            Some(Patch(db, table, schema))
  {
    assert db.schemas[t := changed][table := schema][t := db.schemas[t]] == db.schemas[table := schema];
    assert db.rows[t := db.rows[t]] == db.rows && db.indexes[t := db.indexes[t]] == db.indexes &&
        db.counters[t := db.counters[t]] == db.counters;
  }

  /** The records of the loop over referring tables take all its changes back, whatever happened
      meanwhile to a table the loop does not visit. */
  lemma {:induction false} UnwindReferrers(db: Db, order: seq<string>, change: RefChange, table: string, schema: Schema)
    requires Named(db) && table in db.schemas && table !in order
    ensures var e := ChangeReferrers(db, order, change);
            Unwind(Patch(e.db, table, schema), e.undo) == Some(Patch(db, table, schema))
    decreases |order|
  {
    if order != [] {
      var t := order[0];
      if t in db.schemas {
        ChangeRefsLayout(db.schemas[t], change);
        var db1 := db.(schemas := db.schemas[t := ChangeRefs(db.schemas[t], change)]);
        UnwindReferrers(db1, order[1..], change, table, schema);
        var e := ChangeReferrers(db, order, change);
        var rest := ChangeReferrers(db1, order[1..], change);
        UnwindAppend(Patch(e.db, table, schema), [Snapshot(db, t)], rest.undo);
        UnwindOne(Patch(db1, table, schema), Snapshot(db, t));
        SnapshotPatched(db, t, ChangeRefs(db.schemas[t], change), table, schema);
      } else {
        UnwindReferrers(db, order[1..], change, table, schema);
      }
    }
  }

  // ----- Renaming a column -------------------------------------------------

  lemma RenamedDistinct(schema: Schema, old_: string, new_: string)
    requires DistinctNames(schema) && !HasColumn(schema, new_)
    ensures DistinctNames(RenamedSchema(schema, schema.name, old_, new_))
  {
    var r := RenamedSchema(schema, schema.name, old_, new_);
    forall i, j | 0 <= i < j < |r.columns| ensures r.columns[i].name != r.columns[j].name {
      assert schema.columns[i].name != schema.columns[j].name;
      assert Names(schema)[i] in Names(schema) && Names(schema)[j] in Names(schema);
    }
  }

  lemma RenamedRowsOk(schema: Schema, old_: string, new_: string, rows: Rows, counter: nat)
    requires RowsValid(schema, rows) && KeysDistinct(schema, rows) && IdsOk(schema, rows, counter)
    ensures var r := RenamedSchema(schema, schema.name, old_, new_);
            RowsValid(r, rows) && KeysDistinct(r, rows) && IdsOk(r, rows, counter)
  {
    var r := RenamedSchema(schema, schema.name, old_, new_);
    SameKeyColumns(schema, r, 0);
    forall id | id in rows ensures RowError(r, rows[id]).None? {
      assert RowError(schema, rows[id]).None?;
      forall j | 0 <= j < |rows[id]| ensures ColumnError(r, r.columns[j], rows[id][j]).None? {
        assert ColumnError(schema, schema.columns[j], rows[id][j]).None?;
      }
    }
    SameFlagsSameKeys(schema, r, rows);
    assert RowIdColumn(r) == RowIdColumn(schema);
  }

  lemma KeyOfRenamed(names: seq<string>, columns: seq<string>, old_: string, new_: string, row: Row)
    requires ColumnsKnown(names, columns) && new_ !in names
    ensures ColumnsKnown(RenameNames(names, old_, new_), RenameNames(columns, old_, new_))
    ensures KeyOf(RenameNames(names, old_, new_), RenameNames(columns, old_, new_), row) == KeyOf(names, columns, row)
  {
    var names', columns' := RenameNames(names, old_, new_), RenameNames(columns, old_, new_);
    forall i | 0 <= i < |columns|
      ensures columns'[i] in names' && ValueAt(names', columns'[i], row) == ValueAt(names, columns[i], row)
    {
      assert columns[i] in columns;
      RenamePosition(names, columns[i], old_, new_);
    }
  }

  lemma RenamedIndexesOk(names: seq<string>, indexes: Indexes, rows: Rows, old_: string, new_: string)
    requires IndexesOk(names, indexes, rows) && new_ !in names
    ensures IndexesOk(RenameNames(names, old_, new_), RenameIndexColumns(indexes, old_, new_), rows)
  {
    var names', renamed := RenameNames(names, old_, new_), RenameIndexColumns(indexes, old_, new_);
    forall n | n in renamed ensures renamed[n].meta.name == n && IndexOk(names', renamed[n], rows) {
      assert IndexOk(names, indexes[n], rows);
      if id :| id in rows { KeyOfRenamed(names, indexes[n].meta.columns, old_, new_, rows[id]); }
      forall id | id in rows
        ensures KeyOf(names', renamed[n].meta.columns, rows[id]) == KeyOf(names, indexes[n].meta.columns, rows[id])
      {
        KeyOfRenamed(names, indexes[n].meta.columns, old_, new_, rows[id]);
      }
      SameKeysOk(names, indexes[n], rows, names', renamed[n], rows);
    }
  }

  lemma RenamedTableOk(schema: Schema, old_: string, new_: string, rows: Rows, indexes: Indexes, counter: nat)
    requires TableOk(schema, rows, indexes, counter)
    requires HasColumn(schema, old_) && !HasColumn(schema, new_)
    ensures TableOk(RenamedSchema(schema, schema.name, old_, new_), rows, RenameIndexColumns(indexes, old_, new_),
            counter)
  {
    RenamedDistinct(schema, old_, new_);
    RenamedRowsOk(schema, old_, new_, rows, counter);
    RenamedNamesAndChecks(schema, schema.name, old_, new_);
    RenamedIndexesOk(Names(schema), indexes, rows, old_, new_);
  }

  /** Renaming a column keeps the store right and is undone, whatever the names. */
  lemma RenameColumnPreserves(db: Db, table: string, old_: string, new_: string, order: seq<string>)
    requires StoreOk(db) && table !in order
    ensures var e := RenameColumn(db, table, old_, new_, order); StoreOk(e.db) && Reverts(db, e)
  {
    var e := RenameColumn(db, table, old_, new_, order);
    UnwindNothing(db);
    if table in db.schemas && HasColumn(db.schemas[table], old_) && !HasColumn(db.schemas[table], new_) {
      var schema, rows: Rows, indexes := db.schemas[table], db.rows[table], db.indexes[table];
      var updated := RenamedSchema(schema, table, old_, new_);
      assert TableAt(db, table);
      if ValidMetadata(updated) {
        RenamedTableOk(schema, old_, new_, rows, indexes, db.counters[table]);
        RenameOwnAndReferrers(db, table, updated, RenameIndexColumns(indexes, old_, new_), order,
            ColumnRenamed(table, old_, new_));
      } else {
        RestoreReverts(e, db, table);
      }
    }
  }

  function Own(db: Db, table: string, schema: Schema, indexes: Indexes): Db {
    db.(schemas := db.schemas[table := schema], indexes := db.indexes[table := indexes])
  }

  lemma OwnOk(db: Db, table: string, schema: Schema, indexes: Indexes)
    requires StoreOk(db) && table in db.schemas && schema.name == table
    requires TableOk(schema, db.rows[table], indexes, db.counters[table])
    ensures StoreOk(Own(db, table, schema, indexes)) && SameElsewhere(Own(db, table, schema, indexes), db, table)
  {
    ReplacedTableOk(db, table, schema, db.rows[table], indexes);
    ReplaceElsewhere(db, table, schema, db.rows[table], indexes);
    assert db.rows[table := db.rows[table]] == db.rows;
  }

  lemma OwnUndone(db: Db, own: Db, table: string, order: seq<string>, change: RefChange)
    requires Named(db) && Named(own) && table in db.schemas && table in own.schemas && table !in order &&
             SameElsewhere(own, db, table)
    requires var changed := ChangeReferrers(own, order, change).db;
             table in changed.schemas && changed.schemas[table] == own.schemas[table]
    ensures var changed := ChangeReferrers(own, order, change);
            Unwind(changed.db, [Snapshot(db, table)] + changed.undo) == Some(db)
  {
    var changed := ChangeReferrers(own, order, change);
    UnwindReferrers(own, order, change, table, own.schemas[table]);
    assert Patch(changed.db, table, own.schemas[table]) == changed.db;
    assert Patch(own, table, own.schemas[table]) == own;
    UnwindAppend(changed.db, [Snapshot(db, table)], changed.undo);
    UnwindOne(own, Snapshot(db, table));
    RestoreBrings(own, db, table);
  }

  lemma RenameOwnAndReferrers(db: Db, table: string, schema: Schema, indexes: Indexes, order: seq<string>,
      change: RefChange)
    requires StoreOk(db) && table in db.schemas && table !in order && schema.name == table
    requires TableOk(schema, db.rows[table], indexes, db.counters[table])
    ensures var changed := ChangeReferrers(Own(db, table, schema, indexes), order, change);
            StoreOk(changed.db) && Unwind(changed.db, [Snapshot(db, table)] + changed.undo) == Some(db)
  {
    var own := Own(db, table, schema, indexes);
    OwnOk(db, table, schema, indexes);
    StoreNamed(own);
    StoreNamed(db);
    ReferrersOk(own, order, change);
    OwnUndone(db, own, table, order, change);
  }

  // ----- Renaming a table --------------------------------------------------

  lemma MovedOk(db: Db, from: string, to: string)
    requires StoreOk(db) && from in db.schemas && to !in db.schemas
    ensures StoreOk(Moved(db, from, to))
  {
    var moved := Moved(db, from, to);
    assert moved.schemas.Keys == db.schemas.Keys - {from} + {to};
    forall t | t in moved.schemas ensures TableAt(moved, t) {
      if t == to {
        assert TableAt(db, from);
        LayoutKeepsTableOk(db.schemas[from], moved.schemas[to], db.rows[from], db.indexes[from], db.counters[from]);
      } else {
        assert TableAt(db, t);
      }
    }
  }

  lemma PatchedRefsOk(db: Db, table: string, from: string, to: string)
    requires StoreOk(db) && table in db.schemas
    ensures StoreOk(Patch(db, table, RenameRefTable(db.schemas[table], from, to)))
  {
    ChangedRefsOk(db, table, TableRenamed(from, to));
  }

  lemma WithoutMoved(db: Db, from: string, to: string, schema: Schema)
    requires KeysAgree(db) && from in db.schemas && to !in db.schemas
    ensures Without(Patch(Moved(db, from, to), to, schema), to) == Without(db, from)
  {
    var gone := Without(db, from);
    Unput(gone.schemas, to, schema);
    Unput(gone.rows, to, db.rows[from]);
    Unput(gone.indexes, to, db.indexes[from]);
    Unput(gone.counters, to, db.counters[from]);
    assert Patch(Moved(db, from, to), to, schema).schemas == gone.schemas[to := schema];
  }

  lemma RenameSchemaPreserves(db: Db, from: string, to: string, order: seq<string>)
    requires StoreOk(db) && to !in order
    ensures var e := RenameSchema(db, from, to, order); StoreOk(e.db) && Reverts(db, e)
  {
    var e := RenameSchema(db, from, to, order);
    UnwindNothing(db);
    if to !in db.schemas && from in db.schemas {
      var moved, change := Moved(db, from, to), TableRenamed(from, to);
      MovedOk(db, from, to);
      StoreNamed(moved);
      StoreNamed(db);
      ReferrersOk(moved, order, change);
      var changed := ChangeReferrers(moved, order, change);
      var schema := RenameRefTable(changed.db.schemas[to], from, to);
      PatchedRefsOk(changed.db, to, from, to);
      UnwindReferrers(moved, order, change, to, schema);
      UnwindAppend(e.db, [Snapshot(db, from), UndoDropSchema(to)], changed.undo);
      RenameUndone(db, from, to, schema);
    }
  }

  lemma RenameUndone(db: Db, from: string, to: string, schema: Schema)
    requires Named(db) && from in db.schemas && to !in db.schemas
    ensures Unwind(Patch(Moved(db, from, to), to, schema), [Snapshot(db, from), UndoDropSchema(to)]) == Some(db)
  {
    var start := Patch(Moved(db, from, to), to, schema);
    assert [Snapshot(db, from), UndoDropSchema(to)] == [Snapshot(db, from)] + [UndoDropSchema(to)];
    UnwindAppend(start, [Snapshot(db, from)], [UndoDropSchema(to)]);
    UnwindOne(start, UndoDropSchema(to));
    WithoutMoved(db, from, to, schema);
    UnwindOne(Without(db, from), Snapshot(db, from));
    RestoreBrings(Without(db, from), db, from);
  }
}
