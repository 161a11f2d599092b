/** Where the conditions on callers are needed: what goes wrong in the code without them. */
module StoreLimits {
  import opened Common
  import opened Values
  import opened CheckExprs
  import opened Schemas
  import opened SchemaChanges
  import opened Ascending
  import opened StoreSpec
  import opened StoreInvariant
  import opened StoreRows
  import opened StoreCatalog
  import opened StoreColumns
  import opened StoreRenames

  // ----- Indexes and columns that are gone or not yet there -----------------

  /** An index that names a missing column lets no row in: every insert fails, and as long as the
      pre-check looks at that index it changes nothing but counters. */
  lemma MissingColumnBlocksInserts(env: Env, db: Db, table: string, n: string, row: Row, order: seq<string>)
    requires KeysAgree(db) && table in db.schemas && Lists(order, db.indexes[table].Keys)
    requires n in db.indexes[table] && !ColumnsKnown(Names(db.schemas[table]), db.indexes[table][n].meta.columns)
    ensures var (e, id) := InsertRow(env, db, table, row, order);
            e.error.Some? && id.None? && e.undo == [] &&
            (!BacksPrimaryKey(db.schemas[table], db.indexes[table][n].meta, table) ==> SameUpToCounters(e.db, db))
  {
    var schema, indexes := db.schemas[table], db.indexes[table];
    if |row| == |schema.columns| {
      var (placed, counters) := PlaceInsert(db, table, schema, row);
      assert SameUpToCounters(db.(counters := counters), db);
      if placed.Ok? {
        var p := placed.value;
        NoneAddable(Names(schema), indexes[n], p.row);
        RefusedEffect(db.(counters := counters), table, Names(schema), n, p.id, p.row, order);
        hide InsertError, StoreInserted, PlaceInsert, Addable;
      }
    }
  }

  lemma NoneAddable(names: seq<string>, index: IndexState, row: Row)
    requires !ColumnsKnown(names, index.meta.columns)
    ensures !Addable(names, index, row)
  {
    var c :| c in index.meta.columns && c !in names;
    assert Lookup(names, row, c).Err?;
  }

  /** `create_index` over a missing column succeeds on a table without rows, and the table stays without
      rows: no insert gets in. */
  lemma CreatedOverMissing(env: Env, db: Db, table: string, meta: IndexMeta, row: Row, order: seq<string>)
    requires StoreOk(db) && CreateIndex(db, table, meta).error.None?
    requires !ColumnsKnown(Names(db.schemas[table]), meta.columns)
    requires Lists(order, CreateIndex(db, table, meta).db.indexes[table].Keys)
    ensures var created := CreateIndex(db, table, meta).db;
            var (e, id) := InsertRow(env, created, table, row, order);
            db.rows[table] == map[] && e.error.Some? && id.None? &&
            (!BacksPrimaryKey(db.schemas[table], meta, table) ==> SameUpToCounters(e.db, created))
  {
    CreateIndexPreserves(db, table, meta);
    MissingColumnBlocksInserts(env, CreateIndex(db, table, meta).db, table, meta.name, row, order);
  }

  /** With rows to index, rebuilding fails at the first index that names a missing column and leaves
      that one empty. */
  lemma {:induction false} RebuildMissing(names: seq<string>, rows: Rows, indexes: Indexes, order: seq<string>,
      n: string) returns (first: string)
    requires rows != map[]
    requires RowsFit(names, rows) && n in order && n in indexes && !ColumnsKnown(names, indexes[n].meta.columns)
    ensures first in indexes && !ColumnsKnown(names, indexes[first].meta.columns)
    ensures var (rebuilt, ok) := RebuildIndexes(names, rows, indexes, order);
            !ok && first in rebuilt && rebuilt[first] == indexes[first].(entries := map[])
    decreases |order|
  {
    var m, rest := order[0], order[1..];
    assert order == [m] + rest;
    if m !in indexes {
      first := RebuildMissing(names, rows, indexes, rest, n);
    } else {
      var index := indexes[m];
      FillStops(names, index.meta.columns, rows);
      if ColumnsKnown(names, index.meta.columns) {
        var (entries, ok) := FillEntries(names, index.meta.columns, rows, Sorted(rows.Keys), map[]);
        first := RebuildMissing(names, rows, indexes[m := index.(entries := entries)], rest, n);
      } else {
        first := m;
      }
    }
  }

  /** Filling an index gets through exactly when its columns exist, and otherwise stops at the first row. */
  lemma FillStops(names: seq<string>, columns: seq<string>, rows: Rows)
    requires RowsFit(names, rows) && rows != map[]
    ensures var (entries, ok) := FillEntries(names, columns, rows, Sorted(rows.Keys), map[]);
            (ok <==> ColumnsKnown(names, columns)) && (!ok ==> entries == map[])
  {
    if ColumnsKnown(names, columns) {
      FillAll(names, columns, rows);
    } else {
      var ids := Sorted(rows.Keys);
      var id :| id in rows;
      assert id in ids;
      var c :| c in columns && c !in names;
      assert Lookup(names, rows[ids[0]], c).Err?;
    }
  }

  /** An index over the column has lost its entries. */
  ghost predicate NowEmpty(db: Db, after: Db, table: string, name: string, n: string) {
    && table in db.indexes && n in db.indexes[table] && name in db.indexes[table][n].meta.columns
    && table in after.indexes && n in after.indexes[table] && after.indexes[table][n].entries == map[]
  }

  /** `drop_column` does not look at indexes. A drop that its guards accept fails half-way, with the
      column gone and an index over it empty, exactly when an index names the column and there are rows;
      and exactly then the store it leaves is wrong. */
  lemma DropColumnRightIff(db: Db, table: string, name: string, order: seq<string>)
    requires StoreOk(db) && table in db.schemas && DropColumn(db.schemas[table], name).Ok?
    requires forall n :: n in order <==> n in db.indexes[table]
    ensures var e := DropTableColumn(db, table, name, order);
            var fails := db.rows[table] != map[] && !Unindexed(db.indexes[table], name);
            (e.error == if fails then Some(UnknownColumn) else None) && (StoreOk(e.db) <==> !fails) &&
            (fails ==> exists n :: NowEmpty(db, e.db, table, name, n))
  {
    if db.rows[table] == map[] || Unindexed(db.indexes[table], name) {
      DropColumnPreserves(db, table, name, order);
    } else {
      DropIndexedFails(db, table, name, order);
    }
  }

  lemma DropIndexedFails(db: Db, table: string, name: string, order: seq<string>)
    requires StoreOk(db) && table in db.schemas && DropColumn(db.schemas[table], name).Ok?
    requires forall n :: n in order <==> n in db.indexes[table]
    requires db.rows[table] != map[] && !Unindexed(db.indexes[table], name)
    ensures var e := DropTableColumn(db, table, name, order);
            e.error == Some(UnknownColumn) && !StoreOk(e.db) && exists n :: NowEmpty(db, e.db, table, name, n)
  {
    TableParts(db, table);
    DropEffect(db, table, name, order);
    UsedSomewhere(db.indexes[table], name);
    var e, index := DropTableColumn(db, table, name, order), DropColumn(db.schemas[table], name).value.1;
    hide StoreOk, DropTableColumn, DropColumn, RebuildIndexes, Unindexed, IndexesOk, RowsValid, DistinctNames, Names;
    var first := RebuiltWithout(db.schemas[table], index, db.rows[table], db.indexes[table], order);
    assert NowEmpty(db, e.db, table, name, first);
    MissingNotOk(e.db, table, first);
  }

  /** Rebuilding without a column that an index names. */
  lemma RebuiltWithout(schema: Schema, index: nat, rows: Rows, indexes: Indexes, order: seq<string>)
      returns (first: string)
    requires DistinctNames(schema) && RowsValid(schema, rows) && IndexesOk(Names(schema), indexes, rows) &&
             rows != map[]
    requires index < |schema.columns| && exists n ::
             n in indexes && schema.columns[index].name in indexes[n].meta.columns
    requires forall n :: n in order <==> n in indexes
    ensures var names' := Names(schema.(columns := RemoveAt(schema.columns, index)));
            var (rebuilt, ok) := RebuildIndexes(names', ShortenRows(rows, index), indexes, order);
            !ok && first in indexes && first in rebuilt && rebuilt[first] == indexes[first].(entries := map[]) &&
            schema.columns[index].name in indexes[first].meta.columns &&
                !ColumnsKnown(names', indexes[first].meta.columns)
  {
    hide RebuildIndexes, DistinctNames, RowsValid;
    var names', rows' := Names(schema.(columns := RemoveAt(schema.columns, index))), ShortenRows(rows, index);
    var n :| n in indexes && schema.columns[index].name in indexes[n].meta.columns;
    NameGone(schema, index);
    ShortenedFit(schema, index, rows);
    first := RebuildMissing(names', rows', indexes, order, n);
    assert IndexOk(Names(schema), indexes[first], rows);
    OnlyNameMissing(schema, index, indexes[first], rows);
  }

  lemma UsedSomewhere(indexes: Indexes, name: string)
    requires !Unindexed(indexes, name)
    ensures exists n :: n in indexes && name in indexes[n].meta.columns
  {
  }

  lemma TableParts(db: Db, table: string)
    requires StoreOk(db) && table in db.schemas
    ensures KeysAgree(db) && DistinctNames(db.schemas[table]) && RowsValid(db.schemas[table], db.rows[table])
    ensures IndexesOk(Names(db.schemas[table]), db.indexes[table], db.rows[table])
  {
    assert TableAt(db, table);
  }

  lemma MissingNotOk(db: Db, table: string, n: string)
    requires KeysAgree(db) && table in db.schemas && n in db.indexes[table] && db.rows[table] != map[]
    requires !ColumnsKnown(Names(db.schemas[table]), db.indexes[table][n].meta.columns)
    ensures !StoreOk(db)
  {
    assert !IndexOk(Names(db.schemas[table]), db.indexes[table][n], db.rows[table]);
    if KeysAgree(db) { assert !TableAt(db, table); }
  }

  lemma ShortenedFit(schema: Schema, index: nat, rows: Rows)
    requires RowsValid(schema, rows) && index < |schema.columns|
    ensures RowsFit(Names(schema.(columns := RemoveAt(schema.columns, index))), ShortenRows(rows, index))
  {
    forall id | id in rows ensures |rows[id]| == |schema.columns| { assert RowError(schema, rows[id]).None?; }
  }

  lemma OnlyNameMissing(schema: Schema, index: nat, state: IndexState, rows: Rows)
    requires index < |schema.columns| && IndexOk(Names(schema), state, rows) && rows != map[]
    requires !ColumnsKnown(Names(schema.(columns := RemoveAt(schema.columns, index))), state.meta.columns)
    ensures schema.columns[index].name in state.meta.columns
  {
    var names' := Names(schema.(columns := RemoveAt(schema.columns, index)));
    forall k | 0 <= k < |schema.columns| && k != index ensures schema.columns[k].name in names' {
      assert names'[if k < index then k else k - 1] == schema.columns[k].name;
    }
    var c :| c in state.meta.columns && c !in names';
  }

  lemma NameGone(schema: Schema, index: nat)
    requires index < |schema.columns| && DistinctNames(schema)
    ensures schema.columns[index].name !in Names(schema.(columns := RemoveAt(schema.columns, index)))
  {
  }

  // ----- A unique index taken for the primary key's own ---------------------

  function PlainColumn(name: string, key: bool): ColumnDef {
    ColumnDef(name, TextType, None, true, key, None, Null, [], None, None)
  }

  /** A table whose primary-key column `a` was renamed to `b`: the table-level key still says `a`. */
  function StaleDb(): Db {
    Db(map["t" :=
        Schema("t", [PlainColumn("b", true), PlainColumn("c", false)], [], [], Some(["a"]), [], false, false)],
       map["t" := StaleRows()],
       map["t" := map["sqlite_autoindex_t_2" :=
         IndexState(IndexMeta("sqlite_autoindex_t_2", ["c"], true, NoPredicate), map[[Text("x")] := {1}])]],
       map["t" := 2])
  }

  function StaleRow(): Row { [Text("m"), Text("x")] }

  function StaleRenamed(): Schema {
    Schema("t", [PlainColumn("b", true), PlainColumn("a", false)], [], [], Some(["a"]), [], false, false)
  }

  lemma StaleRenameIs()
    ensures RenamedSchema(StaleDb().schemas["t"], "t", "c", "a") == StaleRenamed() && ValidMetadata(StaleRenamed())
    ensures Names(StaleRenamed()) == ["b", "a"] && Names(StaleDb().schemas["t"]) == ["b", "c"]
    ensures RenameIndexColumns(StaleDb().indexes["t"], "c", "a") == StaleIndexes()
  {
    var schema := StaleDb().schemas["t"];
    var r := RenamedSchema(schema, "t", "c", "a");
    assert RenameName("b", "c", "a") == "b" && RenameName("c", "c", "a") == "a";
    assert r.columns[0] == PlainColumn("b", true);
    assert r.columns[1] == PlainColumn("a", false);
    assert r.columns == StaleRenamed().columns;
    assert RenameNames(["c"], "c", "a") == ["a"];
    assert ColumnChecks(StaleRenamed().columns) == [];
    assert ColumnForeignKeys(StaleRenamed().columns) == [];
  }

  function StaleIndexes(): Indexes {
    map["sqlite_autoindex_t_2" :=
        IndexState(IndexMeta("sqlite_autoindex_t_2", ["a"], true, NoPredicate), map[[Text("x")] := {1}])]
  }

  function StaleRows(): Rows { map[1 := [Text("k"), Text("x")]] }

  lemma StaleNoRowId()
    ensures RowIdColumn(StaleRenamed()).None?
  {
    var schema := StaleRenamed();
    assert KeyColumnsFrom(schema, 2) == [];
    assert KeyColumnsFrom(schema, 1) == [];
    assert KeyColumnsFrom(schema, 0) == [0];
  }

  lemma StaleIndexSkipped()
    ensures var index := StaleIndexes()["sqlite_autoindex_t_2"];
            BacksPrimaryKey(StaleRenamed(), index.meta, "t") &&
            KeyTaken(index, KeyOf(Names(StaleRenamed()), index.meta.columns, StaleRow()))
  {
    var index := StaleIndexes()["sqlite_autoindex_t_2"];
    StaleRenameIs();
    assert "sqlite_autoindex_" + "t" + "_" == "sqlite_autoindex_t_";
    assert "sqlite_autoindex_t_2"[..19] == "sqlite_autoindex_t_";
    assert ["b", "a"][1..] == ["a"];
    assert Position(["b", "a"], "a") == Some(1);
    assert KeyOf(Names(StaleRenamed()), index.meta.columns, StaleRow()) == [Text("x")];
  }

  lemma StaleIndexOk()
    ensures IndexesOk(["b", "c"], StaleDb().indexes["t"], StaleRows())
  {
    var index := StaleDb().indexes["t"]["sqlite_autoindex_t_2"];
    assert ["b", "c"][1..] == ["c"];
    assert KeyOf(["b", "c"], index.meta.columns, StaleRows()[1]) == [Text("x")];
    var keys := KeyMap(["b", "c"], index.meta.columns, StaleRows());
    assert keys == map[1 := [Text("x")]];
    assert Invert(keys) == index.entries by {
      InBucket(keys, 1);
      assert Invert(keys)[[Text("x")]] == {1};
    }
    forall a, b ensures !Clash(index.meta, keys, a, b) {
    }
    assert IndexOk(["b", "c"], index, StaleRows());
  }

  lemma StaleRowsOk()
    ensures var schema := StaleDb().schemas["t"];
            DistinctNames(schema) && RowsValid(schema, StaleRows()) && KeysDistinct(schema, StaleRows()) &&
                IdsOk(schema, StaleRows(), 2)
  {
    var schema := StaleDb().schemas["t"];
    assert RowIdColumn(schema).None? by {
      assert KeyColumnsFrom(schema, 2) == [];
      assert KeyColumnsFrom(schema, 1) == [];
      assert KeyColumnsFrom(schema, 0) == [0];
    }
    assert RowError(schema, StaleRows()[1]).None?;
  }

  /** The store is a right one to begin with. */
  lemma StaleDbOk()
    ensures StoreOk(StaleDb())
  {
    hide IndexesOk, RowsValid, KeysDistinct, IdsOk, DistinctNames;
    StaleIndexOk();
    StaleRowsOk();
    assert Names(StaleDb().schemas["t"]) == ["b", "c"];
    assert TableAt(StaleDb(), "t");
  }

  lemma StalePasses(env: Env)
    ensures InsertPasses(env, StaleRenamed(), "t", StaleRows(), StaleIndexes(), StaleRow())
  {
    var schema := StaleRenamed();
    StaleIndexSkipped();
    assert RowError(schema, StaleRow()).None?;
    assert AllChecks(schema) == [] by { assert ColumnChecks(schema.columns) == []; }
    assert schema.columns[0].primaryKey;
    assert !SamePrimaryKey(schema, StaleRows()[1], StaleRow());
  }

  /** The store after the rename. */
  function StaleRenamedDb(): Db {
    Db(map["t" := StaleRenamed()], map["t" := StaleRows()], map["t" := StaleIndexes()], map["t" := 2])
  }

  lemma StaleRenameEffect()
    ensures RenameColumn(StaleDb(), "t", "c", "a", []).error.None?
    ensures RenameColumn(StaleDb(), "t", "c", "a", []).db == StaleRenamedDb()
  {
    StaleRenameIs();
  }

  lemma StaleNotClear(env: Env)
    ensures !InsertClear(env, StaleRenamedDb(), "t", StaleRow())
  {
    StaleNoRowId();
    StaleIndexSkipped();
    StalePasses(env);
    hide InsertPasses, BacksPrimaryKey;
    assert !Addable(Names(StaleRenamed()), StaleIndexes()["sqlite_autoindex_t_2"], StaleRow());
    assert !SkippedTake(StaleRenamed(), "t", StaleIndexes(), StaleRow());
  }

  lemma StaleInsertFails(env: Env)
    ensures var (e, id) := InsertRow(env, StaleRenamedDb(), "t", StaleRow(), ["sqlite_autoindex_t_2"]);
            e.error.Some? && id.None?
  {
    StaleNoRowId();
    StaleIndexSkipped();
  }

  /** Renaming another column to the stale name makes its unique index pass for the primary key's: from
      one right store, one rename leads to another on which one insert stores a row, fails, and logs
      nothing. No rollback removes that row. */
  lemma StaleKeyNameLeaks(env: Env)
    ensures var renamed := RenameColumn(StaleDb(), "t", "c", "a", []);
            StoreOk(StaleDb()) && renamed.error.None? && StoreOk(renamed.db) && Reverts(StaleDb(), renamed) &&
            !InsertClear(env, renamed.db, "t", StaleRow()) &&
            var (e, id) := InsertRow(env, renamed.db, "t", StaleRow(), ["sqlite_autoindex_t_2"]);
            e.error.Some? && id.None? && e.undo == [] && !StoreOk(e.db) && !Reverts(renamed.db, e)
  {
    hide StoreOk, RenameColumn, InsertRow, InsertClear, StaleDb, StaleRenamedDb, StaleRow, Reverts, Lists, IndexesOf;
    StaleDbOk();
    StaleRenameEffect();
    StaleNotClear(env);
    StaleInsertFails(env);
    StaleListed();
    RenameColumnPreserves(StaleDb(), "t", "c", "a", []);
    UnclearLeaks(env, StaleRenamedDb(), "t", StaleRow(), ["sqlite_autoindex_t_2"]);
  }

  lemma StaleListed()
    ensures Lists(["sqlite_autoindex_t_2"], IndexesOf(StaleRenamedDb(), "t").Keys)
  {
  }

  lemma UnclearLeaks(env: Env, db: Db, table: string, row: Row, order: seq<string>)
    requires StoreOk(db) && Lists(order, IndexesOf(db, table).Keys) && !InsertClear(env, db, table, row)
    ensures var (e, id) := InsertRow(env, db, table, row, order);
            !StoreOk(e.db) && !Reverts(db, e) && (id.None? ==> e.undo == [])
  {
    hide StoreOk, InsertRow, InsertClear, Reverts, Lists, SameUpToCounters;
    InsertPreserves(env, db, table, row, order);
  }
}
