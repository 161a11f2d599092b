/** Runs whose schemas and index definitions agree with each other. On them every insert is clear: once a
    row has passed its checks no index refuses it. */
module StoreAlignment {
  import opened Values
  import opened Schemas
  import opened SchemaChanges
  import opened StoreSpec
  import opened StoreInvariant
  import opened StoreRows
  import opened StoreCatalog
  import opened StoreColumns
  import opened StoreRenames
  import opened Transactions

  ghost predicate Aligned(db: Db) {
    KeysAgree(db) && forall t {:trigger AlignedAt(db, t)} :: t in db.schemas ==> AlignedAt(db, t)
  }

  ghost predicate AlignedAt(db: Db, t: string)
    requires t in db.schemas && t in db.indexes
  {
    AlignedTable(db.schemas[t], db.indexes[t])
  }

  /** Conditions on schemas and index definitions alone: nothing is asked of a row to be inserted. */
  ghost predicate KeepsAlignment(db: Db, op: Mutation) {
    match op
    case CreateTable(schema) => DistinctNames(schema) && KeyAligned(schema)
    case ReplaceTable(schema) =>
      Suits(db, schema) && (schema.name in db.schemas ==> AlignedTable(schema, IndexesOf(db, schema.name)))
    case AddTableColumn(t, c) =>
      (!c.primaryKey || RowsOf(db, t) == map[]) &&
      (t in db.schemas ==> KeyAligned(db.schemas[t].(columns := db.schemas[t].columns + [c])))
    case RenameTableColumn(t, a, b, _) => t in db.schemas ==> KeyAligned(RenamedSchema(db.schemas[t], t, a, b))
    case RemoveTableColumn(t, c, _) =>
        t in db.schemas && DropColumn(db.schemas[t], c).Ok? ==> Unindexed(IndexesOf(db, t), c)
    case AddIndex(t, meta) => t in db.schemas ==> ColumnsKnown(Names(db.schemas[t]), meta.columns)
    case _ => true
  }

  lemma AlignedReady(env: Env, db: Db, op: Mutation)
    requires StoreOk(db) && Aligned(db) && KeepsAlignment(db, op)
    ensures Ready(env, db, op)
  {
    if op.Insert? {
      if op.table in db.schemas { assert AlignedAt(db, op.table); }
      AlignedInsertClear(env, db, op.table, op.row);
    }
  }

  // ----- Every operation keeps it -------------------------------------------

  /** The same columns, keys and index definitions. */
  ghost predicate SameShape(a: Schema, ai: Indexes, b: Schema, bi: Indexes) {
    && |a.columns| == |b.columns| && a.primaryKeyConstraint == b.primaryKeyConstraint
    && (forall i :: 0 <= i < |a.columns| ==>
        a.columns[i].name == b.columns[i].name && a.columns[i].primaryKey == b.columns[i].primaryKey)
    && ai.Keys == bi.Keys && forall n :: n in ai ==> ai[n].meta == bi[n].meta
  }

  lemma ShapeAligned(a: Schema, ai: Indexes, b: Schema, bi: Indexes)
    requires SameShape(a, ai, b, bi) && AlignedTable(a, ai)
    ensures AlignedTable(b, bi)
  {
    assert Names(a) == Names(b);
  }

  lemma OneTableAligned(db: Db, db': Db, table: string)
    requires Aligned(db) && KeysAgree(db')
    requires forall t :: t in db'.schemas && t != table ==>
      t in db.schemas && db'.schemas[t] == db.schemas[t] && db'.indexes[t] == db.indexes[t]
    requires table in db'.schemas ==> AlignedTable(db'.schemas[table], db'.indexes[table])
    ensures Aligned(db')
  {
    forall t | t in db'.schemas ensures AlignedAt(db', t) {
      if t != table { assert AlignedAt(db, t); }
    }
  }

  lemma {:induction false} ReferrersAligned(db: Db, order: seq<string>, change: RefChange)
    requires Aligned(db)
    ensures Aligned(ChangeReferrers(db, order, change).db)
    decreases |order|
  {
    if order != [] {
      var t := order[0];
      if t in db.schemas {
        var db' := db.(schemas := db.schemas[t := ChangeRefs(db.schemas[t], change)]);
        assert AlignedAt(db, t);
        ShapeAligned(db.schemas[t], db.indexes[t], db'.schemas[t], db'.indexes[t]);
        OneTableAligned(db, db', t);
        ReferrersAligned(db', order[1..], change);
      } else {
        ReferrersAligned(db, order[1..], change);
      }
    }
  }

  lemma {:induction false} FilingKeepsMetas(names: seq<string>, indexes: Indexes, id: nat, row: Row, order: seq<string>)
    ensures var filed := FileInOrder(names, indexes, id, row, order).0;
            filed.Keys == indexes.Keys && forall n :: n in indexes ==> filed[n].meta == indexes[n].meta
    decreases |order|
  {
    if order != [] {
      if order[0] in indexes && Refusal(names, indexes[order[0]], row).None? {
        FilingKeepsMetas(names, indexes[order[0] := WithRow(names, indexes[order[0]], id, row)], id, row, order[1..]);
      } else if order[0] !in indexes {
        FilingKeepsMetas(names, indexes, id, row, order[1..]);
      }
    }
  }

  lemma RowOpAligned(db: Db, db': Db, table: string)
    requires Aligned(db) && KeysAgree(db') && db'.schemas == db.schemas
    requires table in db.schemas ==>
      SameShape(db.schemas[table], db.indexes[table], db.schemas[table], db'.indexes[table]) &&
      db'.indexes == db.indexes[table := db'.indexes[table]]
    requires table !in db.schemas ==> db'.indexes == db.indexes
    ensures Aligned(db')
  {
    if table in db.schemas {
      assert AlignedAt(db, table);
      ShapeAligned(db.schemas[table], db.indexes[table], db.schemas[table], db'.indexes[table]);
    }
    OneTableAligned(db, db', table);
  }

  lemma InsertAligned(env: Env, db: Db, table: string, row: Row, order: seq<string>)
    requires Aligned(db)
    ensures Aligned(InsertRow(env, db, table, row, order).0.db)
  {
    var db' := InsertRow(env, db, table, row, order).0.db;
    if table in db.schemas && |row| == |db.schemas[table].columns| {
      hide InsertError;
      var (placed, counters) := PlaceInsert(db, table, db.schemas[table], row);
      assert counters.Keys == db.counters.Keys;
      hide PlaceInsert;
      var drawn := db.(counters := counters);
      RowOpAligned(db, drawn, table);
      if placed.Ok? {
        FiledAligned(drawn, table, placed.value.id, placed.value.row, order);
        assert db' == drawn ||
            db' == StoreInserted(drawn, table, Names(db.schemas[table]), placed.value.id, placed.value.row, order).0.db;
      }
    }
  }

  lemma FiledAligned(db: Db, table: string, id: nat, row: Row, order: seq<string>)
    requires Aligned(db) && table in db.schemas
    ensures Aligned(StoreInserted(db, table, Names(db.schemas[table]), id, row, order).0.db)
  {
    FilingKeepsMetas(Names(db.schemas[table]), db.indexes[table], id, row, order);
    hide FileInOrder;
    RowOpAligned(db, StoreInserted(db, table, Names(db.schemas[table]), id, row, order).0.db, table);
  }

  lemma DeleteAligned(db: Db, table: string, id: nat)
    requires Aligned(db)
    ensures Aligned(DeleteRow(db, table, id).db)
  {
    RowOpAligned(db, DeleteRow(db, table, id).db, table);
  }

  lemma UpdateAligned(env: Env, db: Db, table: string, id: nat, row: Row)
    requires StoreOk(db) && Aligned(db)
    ensures Aligned(UpdateRow(env, db, table, id, row).db)
  {
    UpdateKeepsStoreOk(env, db, table, id, row);
    if UpdateChanges(env, db, table, id, row) {
      hide UpdateRow;
      RowOpAligned(db, UpdateRow(env, db, table, id, row).db, table);
    }
  }

  lemma AddedAligned(env: Env, db: Db, table: string, column: ColumnDef)
    requires Aligned(db) && KeepsAlignment(db, AddTableColumn(table, column))
    ensures Aligned(AddColumn(env, db, table, column).db)
  {
    hide ValidMetadata, FirstRefusal, Extender, RewriteAll;
    if AddColumn(env, db, table, column).error.None? {
      assert AlignedAt(db, table);
      var schema := db.schemas[table];
      assert Names(schema.(columns := schema.columns + [column])) == Names(schema) + [column.name];
      OneTableAligned(db, AddColumn(env, db, table, column).db, table);
    }
  }

  lemma RenamedAligned(db: Db, table: string, old_: string, new_: string, order: seq<string>)
    requires StoreOk(db) && Aligned(db) && KeepsAlignment(db, RenameTableColumn(table, old_, new_, order))
    ensures Aligned(RenameColumn(db, table, old_, new_, order).db)
  {
    hide ValidMetadata, ChangeReferrers, KeyAligned;
    if RenameColumn(db, table, old_, new_, order).error.None? {
      var schema, indexes := db.schemas[table], db.indexes[table];
      var updated, renamed := RenamedSchema(schema, table, old_, new_), RenameIndexColumns(indexes, old_, new_);
      var own := Own(db, table, updated, renamed);
      assert AlignedAt(db, table);
      RenamedNamesAndChecks(schema, table, old_, new_);
      forall n | n in renamed ensures ColumnsKnown(Names(updated), renamed[n].meta.columns) {
        KeyOfRenamed(Names(schema), indexes[n].meta.columns, old_, new_, []);
      }
      OneTableAligned(db, own, table);
      ReferrersAligned(own, order, ColumnRenamed(table, old_, new_));
    }
  }

  lemma DroppedAligned(db: Db, table: string, name: string, order: seq<string>)
    requires StoreOk(db) && Aligned(db) && KeepsAlignment(db, RemoveTableColumn(table, name, order))
    requires OrderOk(db, RemoveTableColumn(table, name, order))
    ensures Aligned(DropTableColumn(db, table, name, order).db)
  {
    if table in db.schemas && DropColumn(db.schemas[table], name).Ok? {
      var schema, rows, indexes := db.schemas[table], db.rows[table], db.indexes[table];
      var (updated, index) := DropColumn(schema, name).value;
      var e := DropTableColumn(db, table, name, order);
      DropEffect(db, table, name, order);
      assert AlignedAt(db, table) && TableAt(db, table);
      hide DropTableColumn, DropColumn, RebuildIndexes, OrderOk, StoreOk;
      DroppedAlignment(schema, index);
      RowsFitNames(schema, rows);
      RebuiltKnown(Names(schema), index, rows, indexes, order);
      DroppedNames(schema, index);
      assert AlignedTable(e.db.schemas[table], e.db.indexes[table]);
      OneTableAligned(db, e.db, table);
    }
  }

  lemma RowsFitNames(schema: Schema, rows: Rows)
    requires RowsValid(schema, rows)
    ensures RowsFit(Names(schema), rows)
  {
    forall id | id in rows ensures |rows[id]| == |schema.columns| { assert RowError(schema, rows[id]).None?; }
  }

  lemma RebuiltKnown(names: seq<string>, index: nat, rows: Rows, indexes: Indexes, order: seq<string>)
    requires index < |names| && Unindexed(indexes, names[index]) && RowsFit(names, rows)
    requires forall n :: n in indexes ==> ColumnsKnown(names, indexes[n].meta.columns)
    ensures var rebuilt := RebuildIndexes(RemoveAt(names, index), ShortenRows(rows, index), indexes, order).0;
            forall n :: n in rebuilt ==> ColumnsKnown(RemoveAt(names, index), rebuilt[n].meta.columns)
  {
    forall n | n in indexes ensures ColumnsKnown(RemoveAt(names, index), indexes[n].meta.columns) {
      KeyOfShortened(names, index, indexes[n].meta.columns, seq(|names|, _ => Null));
    }
    RebuildAll(RemoveAt(names, index), ShortenRows(rows, index), indexes, order);
  }

  lemma DroppedAlignment(schema: Schema, index: nat)
    requires index < |schema.columns| && !schema.columns[index].primaryKey && DistinctNames(schema) &&
             KeyAligned(schema)
    ensures KeyAligned(schema.(columns := RemoveAt(schema.columns, index)))
  {
    var updated := schema.(columns := RemoveAt(schema.columns, index));
    DroppedNames(schema, index);
    if updated.primaryKeyConstraint.Some? && ColumnsKnown(Names(updated), updated.primaryKeyConstraint.value) {
      forall c | c in updated.primaryKeyConstraint.value ensures c in Names(schema) {
        var k :| 0 <= k < |Names(updated)| && Names(updated)[k] == c;
        assert Names(schema)[if k < index then k else k + 1] == c;
      }
    }
  }

  lemma MovedAligned(db: Db, from: string, to: string, order: seq<string>)
    requires StoreOk(db) && Aligned(db)
    ensures Aligned(RenameSchema(db, from, to, order).db)
  {
    if to !in db.schemas && from in db.schemas {
      var moved := Moved(db, from, to);
      assert AlignedAt(db, from);
      ShapeAligned(db.schemas[from], db.indexes[from], moved.schemas[to], moved.indexes[to]);
      OneTableAligned(db, moved, to);
      ReferrersAligned(moved, order, TableRenamed(from, to));
      var changed := ChangeReferrers(moved, order, TableRenamed(from, to)).db;
      if to in changed.schemas {
        var db' := changed.(schemas := changed.schemas[to := RenameRefTable(changed.schemas[to], from, to)]);
        assert AlignedAt(changed, to);
        ShapeAligned(changed.schemas[to], changed.indexes[to], db'.schemas[to], db'.indexes[to]);
        OneTableAligned(changed, db', to);
      }
    }
  }

  lemma CreatedAligned(db: Db, schema: Schema)
    requires Aligned(db) && KeyAligned(schema)
    ensures Aligned(CreateSchema(db, schema).db)
  {
    if schema.name !in db.schemas { OneTableAligned(db, CreateSchema(db, schema).db, schema.name); }
  }

  lemma DroppedTableAligned(db: Db, table: string)
    requires Aligned(db)
    ensures Aligned(DropSchema(db, table).db)
  {
    if table in db.schemas { OneTableAligned(db, DropSchema(db, table).db, table); }
  }

  lemma ReplacedAligned(db: Db, schema: Schema)
    requires Aligned(db) && (schema.name in db.schemas ==> AlignedTable(schema, IndexesOf(db, schema.name)))
    ensures Aligned(ReplaceSchema(db, schema).db)
  {
    if schema.name in db.schemas { OneTableAligned(db, ReplaceSchema(db, schema).db, schema.name); }
  }

  lemma IndexAligned(db: Db, table: string, meta: IndexMeta)
    requires Aligned(db) && (table in db.schemas ==> ColumnsKnown(Names(db.schemas[table]), meta.columns))
    ensures Aligned(CreateIndex(db, table, meta).db)
  {
    if CreateIndex(db, table, meta).error.None? {
      hide BuildEntries;
      assert AlignedAt(db, table);
      OneTableAligned(db, CreateIndex(db, table, meta).db, table);
    }
  }

  lemma IndexDroppedAligned(db: Db, table: string, index: string)
    requires Aligned(db)
    ensures Aligned(DropIndex(db, table, index).db)
  {
    if DropIndex(db, table, index).error.None? {
      assert AlignedAt(db, table);
      OneTableAligned(db, DropIndex(db, table, index).db, table);
    }
  }

  /** Every such operation keeps the store aligned. */
  lemma AlignmentKept(env: Env, db: Db, op: Mutation)
    requires StoreOk(db) && Aligned(db) && KeepsAlignment(db, op) && OrderOk(db, op)
    ensures Aligned(Perform(env, db, op).db)
  {
    hide StoreOk, Aligned, OrderOk, Suits, KeyAligned, AlignedTable, ColumnsKnown;
    hide RenameSchema, AddColumn, RenameColumn, DropTableColumn, InsertRow, DeleteRow, UpdateRow, CreateIndex,
        DropIndex, CreateSchema, DropSchema, ReplaceSchema;
    match op
    case CreateTable(schema) => CreatedAligned(db, schema);
    case DropTable(t) => DroppedTableAligned(db, t);
    case ReplaceTable(schema) => ReplacedAligned(db, schema);
    case RenameTable(a, b, order) => MovedAligned(db, a, b, order);
    case AddTableColumn(t, c) => AddedAligned(env, db, t, c);
    case RenameTableColumn(t, a, b, order) => RenamedAligned(db, t, a, b, order);
    case RemoveTableColumn(t, c, order) => DroppedAligned(db, t, c, order);
    case Insert(t, row, order) => InsertAligned(env, db, t, row, order);
    case Delete(t, id) => DeleteAligned(db, t, id);
    case Update(t, id, row) => UpdateAligned(env, db, t, id, row);
    case AddIndex(t, meta) => IndexAligned(db, t, meta);
    case RemoveIndex(t, i) => IndexDroppedAligned(db, t, i);
  }

  // ----- Whole runs ---------------------------------------------------------

  /** The store and every state it may be rolled back to are aligned. */
  ghost predicate AlignedSession(s: Session) {
    Aligned(s.store.db) &&
        (s.store.active.Some? ==> Aligned(s.base) && forall i :: 0 <= i < |s.marks| ==> Aligned(s.marks[i]))
  }

  ghost predicate AlignedCall(s: Session, call: Call) {
    call.On? && call.action.Do? && IsActive(s.store, call.id) ==>
      KeepsAlignment(s.store.db, call.action.op) && Undoable(s.store.db, call.action.op) &&
          OrderOk(s.store.db, call.action.op)
  }

  ghost predicate AlignedRun(env: Env, s: Session, calls: seq<Call>)
    decreases |calls|
  {
    calls != [] ==> AlignedCall(s, calls[0]) && AlignedRun(env, Record(env, s, calls[0]), calls[1..])
  }

  lemma CountersAside(a: Db, b: Db)
    requires SameUpToCounters(a, b) && Aligned(b)
    ensures Aligned(a)
  {
    forall t | t in a.schemas ensures AlignedAt(a, t) { assert AlignedAt(b, t); }
  }

  lemma AlignedStep(env: Env, s: Session, call: Call)
    requires SessionOk(s) && AlignedSession(s) && AlignedCall(s, call)
    ensures SafeCall(env, s, call) && SessionOk(Record(env, s, call)) && AlignedSession(Record(env, s, call))
  {
    if call.On? && IsActive(s.store, call.id) && call.action.Do? {
      AlignedDo(env, s, call.id, call.action.op);
    } else {
      SafeStep(env, s, call);
      if call.On? && IsActive(s.store, call.id) {
        AlignedAct(env, s, call.id, call.action);
      }
    }
  }

  lemma AlignedDo(env: Env, s: Session, id: nat, op: Mutation)
    requires SessionOk(s) && AlignedSession(s) && IsActive(s.store, id)
    requires KeepsAlignment(s.store.db, op) && Undoable(s.store.db, op) && OrderOk(s.store.db, op)
    ensures SafeCall(env, s, On(id, Do(op))) && SessionOk(Record(env, s, On(id, Do(op)))) &&
            AlignedSession(Record(env, s, On(id, Do(op))))
  {
    AlignedReady(env, s.store.db, op);
    AlignmentKept(env, s.store.db, op);
    DoKeepsSession(env, s, id, op);
    DoIs(env, s, id, op);
    hide Record, Perform, SessionOk, KeepsAlignment, OrderOk, Ready, Undoable, Aligned;
  }

  lemma AlignedAct(env: Env, s: Session, id: nat, action: Action)
    requires SessionOk(s) && AlignedSession(s) && IsActive(s.store, id) && !action.Do?
    ensures AlignedSession(Record(env, s, On(id, action)))
  {
    hide Aligned, StoreOk;
    match action
    case Rollback =>
      RollbackRestores(env, s, id);
      CountersAside(Record(env, s, On(id, action)).store.db, s.base);
    case RollbackTo(name) =>
      RollbackToRestores(env, s, id, name);
      var k := LastMark(s.store.active.value.savepoints, name);
      if k.Some? { CountersAside(Record(env, s, On(id, action)).store.db, s.marks[k.value]); }
    case _ =>
  }

  /** A run that keeps its definitions aligned is safe, whatever rows it inserts. */
  lemma {:induction false} AlignedRunSafe(env: Env, s: Session, calls: seq<Call>)
    requires SessionOk(s) && AlignedSession(s) && AlignedRun(env, s, calls)
    ensures SafeRun(env, s, calls) && SessionOk(Run(env, s, calls)) && AlignedSession(Run(env, s, calls))
    decreases |calls|
  {
    if calls != [] {
      AlignedStep(env, s, calls[0]);
      AlignedRunSafe(env, Record(env, s, calls[0]), calls[1..]);
    }
  }

  /** In every store that such a run reaches from the empty one, no insert that has passed its checks is
      refused by an index. */
  lemma AlignedInsertsNeverRefused(env: Env, calls: seq<Call>, table: string, row: Row, order: seq<string>)
    requires AlignedRun(env, Session(EmptyStore(), EmptyStore().db, []), calls)
    ensures var db := Run(env, Session(EmptyStore(), EmptyStore().db, []), calls).store.db;
            StoreOk(db) && InsertClear(env, db, table, row)
  {
    var start := Session(EmptyStore(), EmptyStore().db, []);
    EmptyStoreOk();
    assert AlignedSession(start);
    AlignedRunSafe(env, start, calls);
    var db := Run(env, start, calls).store.db;
    if table in db.schemas { assert AlignedAt(db, table); }
    AlignedInsertClear(env, db, table, row);
  }
}
