/** What the operations on tables, columns and indexes leave in the store. */
module CatalogMeanings {
  import opened Common
  import opened Values
  import opened Schemas
  import opened SchemaChanges
  import opened StoreSpec
  import opened StoreInvariant
  import opened StoreCatalog
  import opened StoreColumns
  import opened StoreRenames
  import opened Transactions

  // ----- Tables --------------------------------------------------------------

  /** A table is created when its name is free, without rows or indexes, and with 1 as its next row id. */
  lemma CreateTableMeans(db: Db, schema: Schema)
    requires KeysAgree(db)
    ensures var e, t := CreateSchema(db, schema), schema.name;
            (e.error.None? <==> t !in db.schemas) && (e.error.Some? ==> e.db == db) &&
            (e.error.None? ==>
              SameElsewhere(e.db, db, t) && KeysAgree(e.db) && t in e.db.schemas && e.db.schemas[t] == schema &&
              e.db.rows[t] == map[] && e.db.indexes[t] == map[] && e.db.counters[t] == 1)
  {
    var t := schema.name;
    if t !in db.schemas {
      assert CreateSchema(db, schema).db ==
          Db(db.schemas[t := schema], db.rows[t := map[]], db.indexes[t := map[]], db.counters[t := 1]);
      PutElsewhere(db.schemas, t, schema);
      PutElsewhere(db.rows, t, map[]);
      PutElsewhere(db.indexes, t, map[]);
      PutElsewhere(db.counters, t, 1);
      hide CreateSchema;
    }
  }

  lemma PutElsewhere<K, V>(m: map<K, V>, k: K, v: V)
    ensures m[k := v] - {k} == m - {k}
  {
  }

  /** A table that is dropped is gone with its rows, indexes and counter; the others are as they were. */
  lemma DropTableMeans(db: Db, table: string)
    requires KeysAgree(db)
    ensures var e := DropSchema(db, table);
            (e.error.None? <==> table in db.schemas) && SameElsewhere(e.db, db, table) && KeysAgree(e.db) &&
            table !in e.db.schemas
  {
  }

  lemma ReplaceTableMeans(db: Db, schema: Schema)
    requires KeysAgree(db)
    ensures var e, t := ReplaceSchema(db, schema), schema.name;
            (e.error.None? <==> t in db.schemas) && (e.error.Some? ==> e.db == db) &&
            (e.error.None? ==>
              t in e.db.schemas && e.db.schemas[t] == schema && e.db.schemas - {t} == db.schemas - {t}) &&
            e.db.rows == db.rows && e.db.indexes == db.indexes && e.db.counters == db.counters
  {
  }

  /** An index that is dropped is gone; the table's other indexes and everything else are as they were. */
  lemma DropIndexMeans(db: Db, table: string, index: string)
    requires KeysAgree(db)
    ensures var e := DropIndex(db, table, index);
            (e.error.None? <==> table in db.indexes && index in db.indexes[table]) && (e.error.Some? ==> e.db == db) &&
            (e.error.None? ==>
              table in e.db.indexes && index !in e.db.indexes[table] &&
              e.db.indexes[table] == db.indexes[table] - {index} && e.db.indexes - {table} == db.indexes - {table}) &&
            e.db.schemas == db.schemas && e.db.rows == db.rows && e.db.counters == db.counters
  {
  }

  // ----- Columns -------------------------------------------------------------

  /** One more column at the end, and behind every row's cells the same value; nothing else differs. */
  ghost predicate ColumnAdded(env: Env, db: Db, after: Db, table: string, column: ColumnDef)
    requires KeysAgree(db) && table in db.schemas
  {
    && SameElsewhere(after, db, table) && KeysAgree(after) && table in after.schemas
    && after.indexes == db.indexes && after.counters == db.counters
    && after.schemas[table] == db.schemas[table].(columns := db.schemas[table].columns + [column])
    && after.rows[table].Keys == db.rows[table].Keys
    && forall id :: id in db.rows[table] ==>
         after.rows[table][id] == db.rows[table][id] + [AddedCell(env, db.schemas[table], column)]
  }

  /** The column comes last, and every row keeps its cells and gets the same value behind them. */
  lemma AddColumnMeans(env: Env, db: Db, table: string, column: ColumnDef)
    requires StoreOk(db)
    ensures var e := AddColumn(env, db, table, column);
            (e.error.Some? ==> e.db == db) &&
            (table !in db.schemas || HasColumn(db.schemas[table], column.name) ==> e.error.Some?) &&
            (e.error.None? ==> table in db.schemas && ColumnAdded(env, db, e.db, table, column))
  {
    var e := AddColumn(env, db, table, column);
    if e.error.None? {
      AddEffect(env, db, table, column);
      TableValid(db, table);
      hide AddColumn, ExtendRow, StoreOk, RowsValid, RewriteAll, AddedCell, Extender;
      AddedCells(env, db.schemas[table], column, db.rows[table]);
      var updated := db.schemas[table].(columns := db.schemas[table].columns + [column]);
      AddedIs(env, db, table, column, RewriteAll(Extender(env, updated, column.defaultValue), db.rows[table]));
    }
  }

  lemma AddedIs(env: Env, db: Db, table: string, column: ColumnDef, rows': Rows)
    requires KeysAgree(db) && table in db.schemas && rows'.Keys == db.rows[table].Keys
    requires forall id :: id in db.rows[table] ==>
      rows'[id] == db.rows[table][id] + [AddedCell(env, db.schemas[table], column)]
    ensures var updated := db.schemas[table].(columns := db.schemas[table].columns + [column]);
            ColumnAdded(env, db, Db(db.schemas[table := updated], db.rows[table := rows'],
                                    db.indexes[table := db.indexes[table]], db.counters), table, column)
  {
    hide AddedCell;
    var updated := db.schemas[table].(columns := db.schemas[table].columns + [column]);
    ReplaceElsewhere(db, table, updated, rows', db.indexes[table]);
    assert db.indexes[table := db.indexes[table]] == db.indexes;
  }

  lemma TableValid(db: Db, table: string)
    requires StoreOk(db) && table in db.schemas
    ensures KeysAgree(db) && RowsValid(db.schemas[table], db.rows[table])
  {
    assert TableAt(db, table);
  }

  lemma AddedCells(env: Env, schema: Schema, column: ColumnDef, rows: Rows)
    requires RowsValid(schema, rows)
    requires var f := Extender(env, schema.(columns := schema.columns + [column]), column.defaultValue);
             forall id :: id in rows ==> f(rows[id]).Ok?
    ensures var f := Extender(env, schema.(columns := schema.columns + [column]), column.defaultValue);
            RewriteAll(f, rows).Keys == rows.Keys &&
            forall id :: id in rows ==> RewriteAll(f, rows)[id] == rows[id] + [AddedCell(env, schema, column)]
  {
    var updated := schema.(columns := schema.columns + [column]);
    var f := Extender(env, updated, column.defaultValue);
    forall id | id in rows ensures f(rows[id]).value == rows[id] + [AddedCell(env, schema, column)] {
      assert RowError(schema, rows[id]).None?;
      ExtendKeepsCells(env, schema, column, rows[id]);
      AddedCellIs(env, schema, column, rows[id]);
      var r := ExtendRow(env, updated, rows[id], column.defaultValue).value;
      assert r == r[..|rows[id]|] + [r[|rows[id]|]];
    }
  }

  /** The column and its cell in every row are gone; what was behind them moves up. Index definitions stay. */
  lemma DropColumnMeans(db: Db, table: string, name: string, order: seq<string>)
    requires StoreOk(db)
    ensures var e := DropTableColumn(db, table, name, order);
            (table !in db.schemas || DropColumn(db.schemas[table], name).Err? ==> e.error.Some? && e.db == db) &&
            (table in db.schemas && DropColumn(db.schemas[table], name).Ok? ==>
              SameElsewhere(e.db, db, table) && KeysAgree(e.db) && e.db.counters == db.counters &&
              exists i :: 0 <= i < |db.schemas[table].columns| && db.schemas[table].columns[i].name == name &&
                ColumnTakenOut(db, e.db, table, i))
  {
    if table in db.schemas && DropColumn(db.schemas[table], name).Ok? {
      DropEffect(db, table, name, order);
      TableValid(db, table);
      var schema, e := db.schemas[table], DropTableColumn(db, table, name, order);
      var (updated, index) := DropColumn(schema, name).value;
      var rebuilt := RebuildIndexes(Names(updated), ShortenRows(db.rows[table], index), db.indexes[table], order).0;
      hide DropTableColumn, DropColumn, RebuildIndexes, StoreOk, RowsValid;
      ReplaceElsewhere(db, table, updated, ShortenRows(db.rows[table], index), rebuilt);
      hide SameElsewhere;
      TakenOutIs(db, e.db, table, index);
    }
  }

  lemma TakenOutIs(db: Db, after: Db, table: string, i: nat)
    requires KeysAgree(db) && table in db.schemas && RowsValid(db.schemas[table], db.rows[table]) && KeysAgree(after)
    requires i < |db.schemas[table].columns| && table in after.schemas
    requires after.schemas[table] == db.schemas[table].(columns := RemoveAt(db.schemas[table].columns, i))
    requires after.rows[table] == ShortenRows(db.rows[table], i)
    ensures ColumnTakenOut(db, after, table, i)
  {
    forall id | id in db.rows[table] ensures |db.rows[table][id]| == |db.schemas[table].columns| {
      assert RowError(db.schemas[table], db.rows[table][id]).None?;
    }
  }

  ghost predicate ColumnTakenOut(db: Db, after: Db, table: string, i: nat)
    requires KeysAgree(db) && KeysAgree(after) && table in db.schemas
  {
    var columns, rows := db.schemas[table].columns, db.rows[table];
    && i < |columns| && table in after.schemas
    && after.schemas[table] == db.schemas[table].(columns := columns[..i] + columns[i + 1..])
    && after.rows[table].Keys == rows.Keys
    && forall id :: id in rows ==> i < |rows[id]| && after.rows[table][id] == rows[id][..i] + rows[id][i + 1..]
  }

  // ----- References ----------------------------------------------------------

  /** A foreign key of the table points to `to`, or to a column of it. */
  ghost predicate Points(schema: Schema, to: string, column: Option<string>) {
    exists f :: f in AllForeignKeys(schema) &&
      f.refTable == to && (column.Some? ==> HasReferencedColumn(f, column.value))
  }

  lemma RetargetedPoints(schema: Schema, from: string, to: string)
    requires from != to
    ensures !Points(RenameRefTable(schema, from, to), from, None)
  {
    var r := RenameRefTable(schema, from, to);
    forall f | f in AllForeignKeys(r) ensures f.refTable != from {
      if f in r.foreignKeys {
        var i :| 0 <= i < |r.foreignKeys| && r.foreignKeys[i] == f;
        assert f == RetargetKey(schema.foreignKeys[i], from, to);
      } else {
        var i :| 0 <= i < |r.columns| && r.columns[i].foreignKey == Some(f);
        assert f == RetargetKey(schema.columns[i].foreignKey.value, from, to);
      }
    }
  }

  lemma RenamedParentKey(f: ForeignKey, table: string, old_: string, new_: string)
    requires old_ != new_
    ensures var r := RenameParent(f, table, old_, new_); r.refTable == table ==> !HasReferencedColumn(r, old_)
  {
  }

  lemma RenamedParentPoints(schema: Schema, table: string, old_: string, new_: string)
    requires old_ != new_
    ensures !Points(RenameRefColumn(schema, table, old_, new_), table, Some(old_))
  {
    hide RenameParent, HasReferencedColumn;
    var r := RenameRefColumn(schema, table, old_, new_);
    forall f | f in AllForeignKeys(r) && f.refTable == table ensures !HasReferencedColumn(f, old_) {
      if f in r.foreignKeys {
        var i :| 0 <= i < |r.foreignKeys| && r.foreignKeys[i] == f;
        RenamedParentKey(schema.foreignKeys[i], table, old_, new_);
      } else {
        var i :| 0 <= i < |r.columns| && r.columns[i].foreignKey == Some(f);
        RenamedParentKey(schema.columns[i].foreignKey.value, table, old_, new_);
      }
    }
  }

  /** What a change of references is meant to remove. */
  ghost predicate StillPoints(schema: Schema, change: RefChange) {
    match change
    case TableRenamed(from, _) => Points(schema, from, None)
    case ColumnRenamed(table, old_, _) => Points(schema, table, Some(old_))
  }

  predicate RealChange(change: RefChange) { change.from != change.to }

  /** A foreign key names the renamed table or column by its new name where it named it by its old one, and
      is otherwise as it was. */
  ghost predicate KeyFollows(before: ForeignKey, after: ForeignKey, change: RefChange) {
    match change
    case TableRenamed(from, to) =>
      after == before.(refTable := if before.refTable == from then to else before.refTable)
    case ColumnRenamed(table, old_, new_) =>
      after == before.(refColumns := after.refColumns) && RefsFollow(before, after.refColumns, table, old_, new_)
  }

  ghost predicate RefsFollow(before: ForeignKey, refs: Option<seq<string>>, table: string, old_: string, new_: string) {
    if before.refTable == table && before.refColumns.Some?
    then refs.Some? && NamesReplaced(before.refColumns.value, refs.value, old_, new_)
    else refs == before.refColumns
  }

  ghost predicate ColumnFollows(before: ColumnDef, after: ColumnDef, change: RefChange) {
    after == before.(foreignKey := after.foreignKey) && (after.foreignKey.Some? <==> before.foreignKey.Some?) &&
    (before.foreignKey.Some? ==> KeyFollows(before.foreignKey.value, after.foreignKey.value, change))
  }

  /** The foreign keys follow the change, and nothing else in the schema differs. */
  ghost predicate KeysFollow(before: Schema, after: Schema, change: RefChange) {
    && after == before.(columns := after.columns, foreignKeys := after.foreignKeys)
    && |after.columns| == |before.columns| && |after.foreignKeys| == |before.foreignKeys|
    && (forall i :: 0 <= i < |before.columns| ==> ColumnFollows(before.columns[i], after.columns[i], change))
    && forall i :: 0 <= i < |before.foreignKeys| ==> KeyFollows(before.foreignKeys[i], after.foreignKeys[i], change)
  }

  function ChangedKey(f: ForeignKey, change: RefChange): ForeignKey {
    match change
    case TableRenamed(from, to) => RetargetKey(f, from, to)
    case ColumnRenamed(table, old_, new_) => RenameParent(f, table, old_, new_)
  }

  lemma KeyChanged(f: ForeignKey, change: RefChange)
    ensures KeyFollows(f, ChangedKey(f, change), change)
  {
  }

  lemma ChangeFollows(schema: Schema, change: RefChange)
    ensures KeysFollow(schema, ChangeRefs(schema, change), change)
  {
    hide KeyFollows, RetargetKey, RenameParent;
    forall f: ForeignKey ensures KeyFollows(f, ChangedKey(f, change), change) { KeyChanged(f, change); }
    var r := ChangeRefs(schema, change);
    forall i | 0 <= i < |schema.columns| ensures ColumnFollows(schema.columns[i], r.columns[i], change) {
      if schema.columns[i].foreignKey.Some? {
        assert r.columns[i].foreignKey == Some(ChangedKey(schema.columns[i].foreignKey.value, change));
      }
    }
    forall i | 0 <= i < |schema.foreignKeys| ensures KeyFollows(schema.foreignKeys[i], r.foreignKeys[i], change) {
      assert r.foreignKeys[i] == ChangedKey(schema.foreignKeys[i], change);
    }
  }

  lemma KeyFollowsChain(f: ForeignKey, g: ForeignKey, h: ForeignKey, change: RefChange)
    requires RealChange(change) && KeyFollows(f, g, change) && KeyFollows(g, h, change)
    ensures KeyFollows(f, h, change)
  {
  }

  lemma FollowsChain(a: Schema, b: Schema, c: Schema, change: RefChange)
    requires RealChange(change) && KeysFollow(a, b, change) && KeysFollow(b, c, change)
    ensures KeysFollow(a, c, change)
  {
    hide KeyFollows;
    forall i | 0 <= i < |a.foreignKeys| ensures KeyFollows(a.foreignKeys[i], c.foreignKeys[i], change) {
      KeyFollowsChain(a.foreignKeys[i], b.foreignKeys[i], c.foreignKeys[i], change);
    }
    forall i | 0 <= i < |a.columns| ensures ColumnFollows(a.columns[i], c.columns[i], change) {
      assert ColumnFollows(a.columns[i], b.columns[i], change) && ColumnFollows(b.columns[i], c.columns[i], change);
      if a.columns[i].foreignKey.Some? {
        KeyFollowsChain(a.columns[i].foreignKey.value, b.columns[i].foreignKey.value, c.columns[i].foreignKey.value,
                        change);
      }
    }
  }

  lemma UnpointedKey(schema: Schema, f: ForeignKey, change: RefChange)
    requires !StillPoints(schema, change) && f in AllForeignKeys(schema)
    ensures KeyFollows(f, f, change)
  {
  }

  /** A schema that does not point there follows by staying as it is. */
  lemma Unpointed(schema: Schema, change: RefChange)
    requires !StillPoints(schema, change)
    ensures KeysFollow(schema, schema, change)
  {
    hide KeyFollows, StillPoints;
    forall i | 0 <= i < |schema.foreignKeys|
      ensures KeyFollows(schema.foreignKeys[i], schema.foreignKeys[i], change)
    {
      UnpointedKey(schema, schema.foreignKeys[i], change);
    }
    forall i | 0 <= i < |schema.columns| ensures ColumnFollows(schema.columns[i], schema.columns[i], change) {
      if schema.columns[i].foreignKey.Some? {
        assert schema.columns[i].foreignKey == Some(schema.columns[i].foreignKey.value);
        UnpointedKey(schema, schema.columns[i].foreignKey.value, change);
      }
    }
  }

  /** The loop over referring tables: afterwards none but `one`, which it leaves alone, can point to what was
      renamed, and the foreign keys of all the others follow. */
  lemma {:induction false} ReferrersButOne(db: Db, order: seq<string>, change: RefChange, one: string)
    requires RealChange(change) && one in db.schemas && one !in order
    requires forall t :: t in db.schemas && t !in order && t != one ==> !StillPoints(db.schemas[t], change)
    ensures var e := ChangeReferrers(db, order, change);
            e.db == db.(schemas := e.db.schemas) && e.db.schemas.Keys == db.schemas.Keys &&
            e.db.schemas[one] == db.schemas[one] &&
            forall t :: t in db.schemas && t != one ==>
              !StillPoints(e.db.schemas[t], change) && KeysFollow(db.schemas[t], e.db.schemas[t], change)
    decreases |order|
  {
    hide StillPoints, KeysFollow, ChangeRefs;
    if order == [] {
      forall t | t in db.schemas && t != one ensures KeysFollow(db.schemas[t], db.schemas[t], change) {
        Unpointed(db.schemas[t], change);
      }
    } else {
      var t := order[0];
      assert forall u :: u in order && u != t ==> u in order[1..];
      if t in db.schemas {
        var changed := ChangeRefs(db.schemas[t], change);
        NoLongerPoints(db.schemas[t], change);
        ChangeFollows(db.schemas[t], change);
        ReferrersButOne(db.(schemas := db.schemas[t := changed]), order[1..], change, one);
        FollowsChain(db.schemas[t], changed, ChangeReferrers(db, order, change).db.schemas[t], change);
      } else {
        ReferrersButOne(db, order[1..], change, one);
      }
    }
  }

  lemma NoLongerPoints(schema: Schema, change: RefChange)
    requires RealChange(change)
    ensures !StillPoints(ChangeRefs(schema, change), change)
  {
    match change
    case TableRenamed(from, to) => RetargetedPoints(schema, from, to);
    case ColumnRenamed(table, old_, new_) => RenamedParentPoints(schema, table, old_, new_);
  }

  ghost predicate DataMoved(db: Db, after: Db, from: string, to: string)
    requires KeysAgree(db) && from in db.schemas
  {
    && after.schemas.Keys == (db.schemas.Keys - {from}) + {to}
    && after.rows == (db.rows - {from})[to := db.rows[from]]
    && after.indexes == (db.indexes - {from})[to := db.indexes[from]]
    && after.counters == (db.counters - {from})[to := db.counters[from]]
  }

  /** The table's four entries under the new name, and no foreign key to the old one. */
  ghost predicate TableMoved(db: Db, after: Db, from: string, to: string)
    requires KeysAgree(db) && from in db.schemas
  {
    && DataMoved(db, after, from, to)
    && KeysFollow(db.schemas[from].(name := to), after.schemas[to], TableRenamed(from, to))
    && OthersFollow(db.schemas, after.schemas, from, TableRenamed(from, to))
    && NonePoints(after.schemas, from, None)
  }

  ghost predicate OthersFollow(before: map<string, Schema>, after: map<string, Schema>, one: string,
      change: RefChange) {
    forall t :: t in before && t != one ==> t in after && KeysFollow(before[t], after[t], change)
  }

  ghost predicate NonePoints(schemas: map<string, Schema>, to: string, column: Option<string>) {
    forall t :: t in schemas ==> !Points(schemas[t], to, column)
  }

  /** A renamed table is there under its new name with its rows, indexes and counter, and no foreign key
      points to the old name any more. */
  lemma RenameTableMeans(db: Db, from: string, to: string, order: seq<string>)
    requires StoreOk(db) && OrderOk(db, RenameTable(from, to, order))
    ensures var e := RenameSchema(db, from, to, order);
            (e.error.None? <==> from in db.schemas && to !in db.schemas) && (e.error.Some? ==> e.db == db) &&
            (e.error.None? ==> TableMoved(db, e.db, from, to))
  {
    if from in db.schemas && to !in db.schemas {
      var moved, change := Moved(db, from, to), TableRenamed(from, to);
      OthersDoNotPoint(db, from, to, order);
      ReferrersButOne(moved, order, change, to);
      var changed := ChangeReferrers(moved, order, change).db;
      hide ChangeReferrers, StoreOk, OrderOk, Referrers;
      RetargetedPoints(changed.schemas[to], from, to);
      MovedAfter(db, changed, from, to);
    }
  }

  lemma OthersDoNotPoint(db: Db, from: string, to: string, order: seq<string>)
    requires KeysAgree(db) && from in db.schemas && to !in db.schemas && OrderOk(db, RenameTable(from, to, order))
    ensures forall t :: t in Moved(db, from, to).schemas && t !in order && t != to ==>
            !StillPoints(Moved(db, from, to).schemas[t], TableRenamed(from, to))
  {
  }

  lemma NoneStill(schema: Schema, from: string, to: string)
    requires !StillPoints(schema, TableRenamed(from, to))
    ensures !Points(schema, from, None)
  {
  }

  lemma RetargetedColumns(schema: Schema, from: string, to: string)
    ensures KeysFollow(schema, RenameRefTable(schema, from, to), TableRenamed(from, to))
  {
    ChangeFollows(schema, TableRenamed(from, to));
  }

  lemma MovedMaps(db: Db, from: string, to: string)
    requires KeysAgree(db) && from in db.schemas && to !in db.schemas
    ensures var moved := Moved(db, from, to);
            && moved.schemas == (db.schemas - {from})[to := db.schemas[from].(name := to)]
            && moved.rows == (db.rows - {from})[to := db.rows[from]]
            && moved.indexes == (db.indexes - {from})[to := db.indexes[from]]
            && moved.counters == (db.counters - {from})[to := db.counters[from]]
  {
  }

  lemma MovedAfter(db: Db, changed: Db, from: string, to: string)
    requires KeysAgree(db) && from in db.schemas && to !in db.schemas
    requires var moved := Moved(db, from, to);
             && changed == moved.(schemas := changed.schemas) && changed.schemas.Keys == moved.schemas.Keys
             && changed.schemas[to] == moved.schemas[to]
             && forall t :: t in moved.schemas && t != to ==>
                  !StillPoints(changed.schemas[t], TableRenamed(from, to)) &&
                  KeysFollow(moved.schemas[t], changed.schemas[t], TableRenamed(from, to))
    requires !Points(RenameRefTable(changed.schemas[to], from, to), from, None)
    ensures var after := changed.(schemas := changed.schemas[to := RenameRefTable(changed.schemas[to], from, to)]);
            TableMoved(db, after, from, to)
  {
    var after := changed.(schemas := changed.schemas[to := RenameRefTable(changed.schemas[to], from, to)]);
    hide Points, Moved, StillPoints, KeysFollow, NonePoints, OthersFollow, DataMoved;
    MovedMaps(db, from, to);
    var moved := Moved(db, from, to);
    MovedData(db, after, from, to);
    RetargetedColumns(changed.schemas[to], from, to);
    hide RenameRefTable;
    OthersMoved(db.schemas, moved.schemas, changed.schemas, from, to, after.schemas);
  }

  lemma MovedData(db: Db, after: Db, from: string, to: string)
    requires KeysAgree(db) && from in db.schemas && to !in db.schemas
    requires var moved := Moved(db, from, to);
             after == moved.(schemas := after.schemas) && after.schemas.Keys == moved.schemas.Keys
    ensures DataMoved(db, after, from, to)
  {
    MovedMaps(db, from, to);
  }

  lemma OthersMoved(before: map<string, Schema>, moved: map<string, Schema>, changed: map<string, Schema>,
      from: string, to: string, after: map<string, Schema>)
    requires from in before && to !in before && moved == (before - {from})[to := before[from].(name := to)]
    requires changed.Keys == moved.Keys && to in after && after == changed[to := after[to]]
    requires !Points(after[to], from, None)
    requires forall t :: t in moved && t != to ==>
               !StillPoints(changed[t], TableRenamed(from, to)) &&
               KeysFollow(moved[t], changed[t], TableRenamed(from, to))
    ensures NonePoints(after, from, None) && OthersFollow(before, after, from, TableRenamed(from, to))
  {
    hide KeysFollow, Points, StillPoints;
    forall t | t in changed && t != to ensures !Points(changed[t], from, None) { NoneStill(changed[t], from, to); }
  }

  /** The new name in the table and in its indexes' definitions, and no foreign key that uses the old one. */
  ghost predicate ColumnMoved(db: Db, after: Db, table: string, old_: string, new_: string)
    requires KeysAgree(db) && table in db.schemas
  {
    && after.schemas.Keys == db.schemas.Keys && after.rows == db.rows && after.counters == db.counters
    && NamesReplaced(Names(db.schemas[table]), Names(after.schemas[table]), old_, new_)
    && after.indexes.Keys == db.indexes.Keys && after.indexes - {table} == db.indexes - {table}
    && IndexNamesReplaced(db.indexes[table], after.indexes[table], old_, new_)
    && NonePoints(after.schemas, table, Some(old_))
    && OwnFollows(db.schemas[table], after.schemas[table], table, old_, new_)
    && OthersFollow(db.schemas, after.schemas, table, ColumnRenamed(table, old_, new_))
  }

  ghost predicate OwnKeyFollows(before: ForeignKey, after: ForeignKey, table: string, old_: string, new_: string) {
    after == before.(columns := after.columns, refColumns := after.refColumns) &&
    NamesReplaced(before.columns, after.columns, old_, new_) &&
    RefsFollow(before, after.refColumns, table, old_, new_)
  }

  ghost predicate OwnColumnFollows(before: ColumnDef, after: ColumnDef, table: string, old_: string, new_: string) {
    after == before.(name := if before.name == old_ then new_ else before.name, checks := after.checks,
                     foreignKey := after.foreignKey) &&
    (after.foreignKey.Some? <==> before.foreignKey.Some?) &&
    (before.foreignKey.Some? ==>
      OwnKeyFollows(before.foreignKey.value, after.foreignKey.value, table, old_, new_))
  }

  /** In the table itself columns, foreign keys on both sides and unique constraints follow; nothing but
      these and the CHECKs differs. */
  ghost predicate OwnFollows(before: Schema, after: Schema, table: string, old_: string, new_: string) {
    && after == before.(columns := after.columns, checks := after.checks, foreignKeys := after.foreignKeys,
                        uniqueConstraints := after.uniqueConstraints)
    && |after.columns| == |before.columns| && |after.foreignKeys| == |before.foreignKeys|
    && |after.uniqueConstraints| == |before.uniqueConstraints|
    && (forall i :: 0 <= i < |before.columns| ==>
        OwnColumnFollows(before.columns[i], after.columns[i], table, old_, new_))
    && (forall i :: 0 <= i < |before.foreignKeys| ==>
        OwnKeyFollows(before.foreignKeys[i], after.foreignKeys[i], table, old_, new_))
    && forall i :: 0 <= i < |before.uniqueConstraints| ==>
         NamesReplaced(before.uniqueConstraints[i], after.uniqueConstraints[i], old_, new_)
  }

  lemma OwnKeyChanged(f: ForeignKey, table: string, old_: string, new_: string)
    requires old_ != new_
    ensures OwnKeyFollows(f, OwnKey(f, table, old_, new_), table, old_, new_)
    ensures RenameParent(OwnKey(f, table, old_, new_), table, old_, new_) == OwnKey(f, table, old_, new_)
  {
    if f.refColumns.Some? {
      var once := RenameNames(f.refColumns.value, old_, new_);
      assert RenameNames(once, old_, new_) == once;
    }
  }

  function OwnKey(f: ForeignKey, table: string, old_: string, new_: string): ForeignKey {
    RenameParent(RenameChild(f, old_, new_), table, old_, new_)
  }

  lemma RenamedOwnFollows(schema: Schema, table: string, old_: string, new_: string)
    requires old_ != new_ && schema.name == table
    ensures OwnFollows(schema, RenamedSchema(schema, table, old_, new_), table, old_, new_)
  {
    hide OwnKeyFollows, RenameChild, RenameParent;
    var r := RenamedSchema(schema, table, old_, new_);
    forall i | 0 <= i < |schema.foreignKeys|
      ensures OwnKeyFollows(schema.foreignKeys[i], r.foreignKeys[i], table, old_, new_)
    {
      OwnKeyChanged(schema.foreignKeys[i], table, old_, new_);
      assert r.foreignKeys[i] == OwnKey(schema.foreignKeys[i], table, old_, new_);
    }
    forall i | 0 <= i < |schema.columns|
      ensures OwnColumnFollows(schema.columns[i], r.columns[i], table, old_, new_)
    {
      if schema.columns[i].foreignKey.Some? {
        OwnKeyChanged(schema.columns[i].foreignKey.value, table, old_, new_);
        assert r.columns[i].foreignKey == Some(OwnKey(schema.columns[i].foreignKey.value, table, old_, new_));
      }
    }
  }

  /** A renamed column has its new name in the table and in the definitions of the table's indexes, rows and
      index contents stay, and no foreign key refers to it by its old name any more. */
  lemma RenameColumnMeans(db: Db, table: string, old_: string, new_: string, order: seq<string>)
    requires StoreOk(db) && OrderOk(db, RenameTableColumn(table, old_, new_, order))
    ensures var e := RenameColumn(db, table, old_, new_, order);
            (e.error.Some? ==> e.db == db) &&
            (table in db.schemas && ValidMetadata(db.schemas[table]) ==>
              (e.error.None? <==> HasColumn(db.schemas[table], old_) && !HasColumn(db.schemas[table], new_))) &&
            (e.error.None? ==> table in db.schemas && ColumnMoved(db, e.db, table, old_, new_))
  {
    if table in db.schemas && HasColumn(db.schemas[table], old_) && !HasColumn(db.schemas[table], new_) {
      var schema := db.schemas[table];
      assert TableAt(db, table);
      var updated := RenamedSchema(schema, table, old_, new_);
      if ValidMetadata(schema) { RenameKeepsMetadata(schema, table, old_, new_); }
      if ValidMetadata(updated) {
        var own := Own(db, table, updated, RenameIndexColumns(db.indexes[table], old_, new_));
        OthersDoNotRefer(db, table, old_, new_, order);
        hide ValidMetadata, OrderOk, StoreOk;
        ReferrersButOne(own, order, ColumnRenamed(table, old_, new_), table);
        hide ChangeReferrers;
        ColumnMovedAfter(db, ChangeReferrers(own, order, ColumnRenamed(table, old_, new_)).db, table, old_, new_);
      }
    }
  }

  lemma OthersDoNotRefer(db: Db, table: string, old_: string, new_: string, order: seq<string>)
    requires KeysAgree(db) && table in db.schemas && OrderOk(db, RenameTableColumn(table, old_, new_, order))
    requires RenameColumn(db, table, old_, new_, order).error.None?
    ensures forall t :: t in db.schemas && t !in order && t != table ==>
            !StillPoints(db.schemas[t], ColumnRenamed(table, old_, new_))
  {
    hide RenameColumn;
  }

  lemma NoneStillRefer(schema: Schema, table: string, old_: string, new_: string)
    requires !StillPoints(schema, ColumnRenamed(table, old_, new_))
    ensures !Points(schema, table, Some(old_))
  {
  }

  lemma RenamedOwn(schema: Schema, table: string, old_: string, new_: string)
    requires old_ != new_
    ensures NamesReplaced(Names(schema), Names(RenamedSchema(schema, table, old_, new_)), old_, new_)
    ensures !Points(RenamedSchema(schema, table, old_, new_), table, Some(old_))
  {
    hide Points;
    RenamedParentPoints(RenameColumnReferences(schema, old_, new_), table, old_, new_);
    RenamedNamesAndChecks(schema, table, old_, new_);
  }

  lemma RenamedIndexes(indexes: Indexes, old_: string, new_: string)
    ensures IndexNamesReplaced(indexes, RenameIndexColumns(indexes, old_, new_), old_, new_)
  {
  }

  lemma ColumnMovedAfter(db: Db, changed: Db, table: string, old_: string, new_: string)
    requires KeysAgree(db) && table in db.schemas && old_ != new_
    requires var own := Own(db, table, RenamedSchema(db.schemas[table], table, old_, new_),
                            RenameIndexColumns(db.indexes[table], old_, new_));
             && changed == own.(schemas := changed.schemas) && changed.schemas.Keys == own.schemas.Keys
             && changed.schemas[table] == own.schemas[table]
             && forall t :: t in own.schemas && t != table ==>
                  !StillPoints(changed.schemas[t], ColumnRenamed(table, old_, new_)) &&
                  KeysFollow(own.schemas[t], changed.schemas[t], ColumnRenamed(table, old_, new_))
    requires db.schemas[table].name == table
    ensures ColumnMoved(db, changed, table, old_, new_)
  {
    hide Points, NamesReplaced, IndexNamesReplaced, StillPoints, Names, RenamedSchema, RenameIndexColumns, ColumnMoved;
    hide KeysFollow, OwnFollows, NonePoints, OthersFollow;
    RenamedOwnFollows(db.schemas[table], table, old_, new_);
    RenamedOwn(db.schemas[table], table, old_, new_);
    RenamedIndexes(db.indexes[table], old_, new_);
    OthersMovedOn(db.schemas, changed.schemas, table, old_, new_);
    ColumnMovedIs(db, changed, table, old_, new_, RenameIndexColumns(db.indexes[table], old_, new_));
  }

  lemma ColumnMovedIs(db: Db, changed: Db, table: string, old_: string, new_: string, indexes: Indexes)
    requires KeysAgree(db) && table in db.schemas && changed.schemas.Keys == db.schemas.Keys
    requires changed == db.(schemas := changed.schemas, indexes := db.indexes[table := indexes])
    requires NamesReplaced(Names(db.schemas[table]), Names(changed.schemas[table]), old_, new_)
    requires IndexNamesReplaced(db.indexes[table], indexes, old_, new_)
    requires NonePoints(changed.schemas, table, Some(old_))
    requires OwnFollows(db.schemas[table], changed.schemas[table], table, old_, new_)
    requires OthersFollow(db.schemas, changed.schemas, table, ColumnRenamed(table, old_, new_))
    ensures ColumnMoved(db, changed, table, old_, new_)
  {
    hide NonePoints, NamesReplaced, IndexNamesReplaced, Names, OwnFollows, OthersFollow;
  }

  lemma OthersMovedOn(before: map<string, Schema>, changed: map<string, Schema>, table: string, old_: string,
      new_: string)
    requires changed.Keys == before.Keys && table in before && !Points(changed[table], table, Some(old_))
    requires forall t :: t in changed && t != table ==>
               !StillPoints(changed[t], ColumnRenamed(table, old_, new_)) &&
               KeysFollow(before[t], changed[t], ColumnRenamed(table, old_, new_))
    ensures NonePoints(changed, table, Some(old_))
    ensures OthersFollow(before, changed, table, ColumnRenamed(table, old_, new_))
  {
    hide Points, StillPoints, KeysFollow;
    forall t | t in changed && t != table ensures !Points(changed[t], table, Some(old_)) {
      NoneStillRefer(changed[t], table, old_, new_);
    }
  }

  ghost predicate NamesReplaced(before: seq<string>, after: seq<string>, old_: string, new_: string) {
    |after| == |before| && forall i :: 0 <= i < |before| ==> after[i] == if before[i] == old_ then new_ else before[i]
  }

  ghost predicate IndexNamesReplaced(before: Indexes, after: Indexes, old_: string, new_: string) {
    after.Keys == before.Keys && forall n :: n in before ==>
      after[n].entries == before[n].entries && after[n].meta == before[n].meta.(columns := after[n].meta.columns) &&
      NamesReplaced(before[n].meta.columns, after[n].meta.columns, old_, new_)
  }

  // ----- Transaction calls ---------------------------------------------------

  /** Begin takes the next transaction id with an empty log, and only when no transaction is active. */
  lemma BeginMeans(env: Env, store: Store)
    ensures var (after, error) := Step(env, store, Begin);
            (error.None? <==> store.active.None?) && after.db == store.db && (error.Some? ==> after == store) &&
            (error.None? ==>
              after.active == Some(ActiveTransaction(store.nextTxnId, [], [])) &&
              after.nextTxnId == store.nextTxnId + 1)
  {
  }

  /** Commit ends the transaction and a savepoint is put behind the live ones; neither touches the data. */
  lemma CommitAndMarkMean(env: Env, store: Store, id: nat, name: string)
    requires IsActive(store, id)
    ensures Step(env, store, On(id, Commit)) == (store.(active := None), None)
    ensures var (after, error) := Step(env, store, On(id, Mark(name)));
            error.None? && after.db == store.db && IsActive(after, id) &&
            after.active.value.undoLog == store.active.value.undoLog &&
            after.active.value.savepoints ==
            store.active.value.savepoints + [Savepoint(name, |store.active.value.undoLog|)]
  {
  }

  /** A release forgets the latest savepoint of the name and all later ones, and touches neither data nor
      log. If no earlier savepoint has the name, rolling back to it fails afterwards. */
  lemma ReleaseMeans(env: Env, store: Store, id: nat, name: string)
    requires IsActive(store, id)
    ensures var txn, (after, error) := store.active.value, Step(env, store, On(id, Release(name)));
            match LastMark(txn.savepoints, name)
            case None => error == Some(NoSuchSavepoint) && after == store
            case Some(k) =>
              error.None? && after == store.(active := Some(txn.(savepoints := after.active.value.savepoints))) &&
              after.active.value.savepoints == txn.savepoints[..k] &&
              ((forall i :: 0 <= i < k ==> !SameName(txn.savepoints[i].name, name)) ==>
                Step(env, after, On(id, RollbackTo(name))).1 == Some(NoSuchSavepoint))
  {
    var txn := store.active.value;
    var k := LastMark(txn.savepoints, name);
    if k.Some? && forall i :: 0 <= i < k.value ==> !SameName(txn.savepoints[i].name, name) {
      assert LastMark(txn.savepoints[..k.value], name).None?;
    }
  }

  /** A call under any other transaction id is refused. */
  lemma ForeignCallRefused(env: Env, store: Store, id: nat, action: Action)
    requires !IsActive(store, id)
    ensures Step(env, store, On(id, action)) == (store, Some(TransactionError))
  {
  }
}
