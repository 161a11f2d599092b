/** Adding, renaming and dropping a column, and renaming a table, keep the store right and log what
    undoes them. */
module StoreColumns {
  import opened Common
  import opened Values
  import opened CheckExprs
  import opened Schemas
  import opened SchemaChanges
  import opened Ascending
  import opened StoreSpec
  import opened StoreInvariant
  import opened StoreRows
  import opened StoreCatalog

  /** Indexes stay right when names, definitions and rows change without changing any key. */
  lemma SameKeysOk(names: seq<string>, index: IndexState, rows: Rows, names': seq<string>, index': IndexState,
      rows': Rows)
    requires IndexOk(names, index, rows)
    requires index'.entries == index.entries && index'.meta.unique == index.meta.unique
    requires index'.meta.columns != [] && (rows' != map[] ==> ColumnsKnown(names', index'.meta.columns))
    requires rows'.Keys == rows.Keys
    requires forall id :: id in rows ==>
             KeyOf(names', index'.meta.columns, rows'[id]) == KeyOf(names, index.meta.columns, rows[id])
    ensures IndexOk(names', index', rows')
  {
    var keys := KeyMap(names, index.meta.columns, rows);
    assert KeyMap(names', index'.meta.columns, rows') == keys;
    forall a, b ensures !Clash(index'.meta, keys, a, b) {
      assert !Clash(index.meta, keys, a, b);
    }
  }

  // ----- Adding a column ---------------------------------------------------

  lemma {:induction false} PositionAppend(names: seq<string>, name: string, added: string)
    requires name in names
    ensures Position(names + [added], name) == Position(names, name)
  {
    if names[0] != name {
      assert (names + [added])[1..] == names[1..] + [added];
      PositionAppend(names[1..], name, added);
    }
  }

  lemma {:induction false} KeyColumnsAppend(schema: Schema, column: ColumnDef, i: nat)
    requires !column.primaryKey
    ensures KeyColumnsFrom(schema.(columns := schema.columns + [column]), i) == KeyColumnsFrom(schema, i)
    decreases |schema.columns| + 1 - i
  {
    if i <= |schema.columns| {
      KeyColumnsAppend(schema, column, i + 1);
    }
  }

  /** Extending a valid row keeps its cells, STRICT normalisation included. */
  lemma ExtendKeepsCells(env: Env, schema: Schema, column: ColumnDef, row: Row)
    requires RowError(schema, row).None?
    requires ExtendRow(env, schema.(columns := schema.columns + [column]), row, column.defaultValue).Ok?
    ensures var r := ExtendRow(env, schema.(columns := schema.columns + [column]), row, column.defaultValue).value;
            |r| == |row| + 1 && r[..|row|] == row && RowError(schema.(columns := schema.columns + [column]), r).None?
  {
    var updated := schema.(columns := schema.columns + [column]);
    var candidate := row + [column.defaultValue];
    var r := ExtendRow(env, updated, row, column.defaultValue).value;
    if schema.strict {
      forall j | 0 <= j < |row| ensures r[j] == row[j] {
        assert ColumnError(schema, schema.columns[j], row[j]).None?;
        assert NormalizeStrictValue(env, updated.columns[j], candidate[j]) == Some(row[j]);
      }
    }
  }

  lemma KeyOfExtended(names: seq<string>, added: string, columns: seq<string>, row: Row, r: Row)
    requires ColumnsKnown(names, columns) && |row| == |names| && |r| == |row| + 1 && r[..|row|] == row
    ensures KeyOf(names + [added], columns, r) == KeyOf(names, columns, row)
  {
    forall j | 0 <= j < |columns| ensures ValueAt(names + [added], columns[j], r) == ValueAt(names, columns[j], row) {
      assert columns[j] in columns;
      PositionAppend(names, columns[j], added);
    }
  }

  ghost predicate ExtendedRows(rows: Rows, rows': Rows, width: nat) {
    rows'.Keys == rows.Keys && forall id :: id in rows ==>
        |rows[id]| == width && |rows'[id]| == width + 1 && rows'[id][..width] == rows[id]
  }

  lemma ExtendedIndexesOk(names: seq<string>, added: string, indexes: Indexes, rows: Rows, rows': Rows)
    requires IndexesOk(names, indexes, rows) && ExtendedRows(rows, rows', |names|)
    ensures IndexesOk(names + [added], indexes, rows')
  {
    forall n | n in indexes ensures indexes[n].meta.name == n && IndexOk(names + [added], indexes[n], rows') {
      assert IndexOk(names, indexes[n], rows);
      assert rows'.Keys == rows.Keys;
      forall id | id in rows
        ensures KeyOf(names + [added], indexes[n].meta.columns, rows'[id]) ==
                KeyOf(names, indexes[n].meta.columns, rows[id])
      {
        KeyOfExtended(names, added, indexes[n].meta.columns, rows[id], rows'[id]);
      }
      SameKeysOk(names, indexes[n], rows, names + [added], indexes[n], rows');
    }
  }

  lemma ExtendedNames(schema: Schema, column: ColumnDef)
    requires DistinctNames(schema) && !HasColumn(schema, column.name)
    ensures var updated := schema.(columns := schema.columns + [column]);
            DistinctNames(updated) && Names(updated) == Names(schema) + [column.name]
  {
    var updated := schema.(columns := schema.columns + [column]);
    assert Names(updated) == Names(schema) + [column.name];
    forall i, j | 0 <= i < j < |updated.columns| ensures updated.columns[i].name != updated.columns[j].name {
      assert Names(schema)[i] in Names(schema);
    }
  }

  lemma ExtendedTableOk(schema: Schema, column: ColumnDef, rows: Rows, rows': Rows, indexes: Indexes, counter: nat)
    requires TableOk(schema, rows, indexes, counter)
    requires !HasColumn(schema, column.name) && !column.primaryKey
    requires ExtendedRows(rows, rows', |schema.columns|)
    requires RowsValid(schema.(columns := schema.columns + [column]), rows')
    ensures TableOk(schema.(columns := schema.columns + [column]), rows', indexes, counter)
  {
    var updated := schema.(columns := schema.columns + [column]);
    ExtendedNames(schema, column);
    ExtendedIndexesOk(Names(schema), column.name, indexes, rows, rows');
    KeyColumnsAppend(schema, column, 0);
    assert RowIdColumn(updated) == RowIdColumn(schema);
    assert IdsOk(updated, rows', counter) by {
      if RowIdColumn(schema).Some? {
        var i := RowIdColumn(schema).value;
        forall id | id in rows'
            ensures rows'[id][i] == Integer(id) { assert rows'[id][..|schema.columns|][i] == rows[id][i]; }
      }
    }
    if HasPrimaryKey(updated) {
      assert HasPrimaryKey(schema);
      forall a, b | a in rows' && b in rows' && a != b ensures !SamePrimaryKey(updated, rows'[a], rows'[b]) {
        assert !SamePrimaryKey(schema, rows[a], rows[b]);
        var i :| 0 <= i < |schema.columns| && schema.columns[i].primaryKey && rows[a][i] != rows[b][i];
        assert rows'[a][..|schema.columns|][i] != rows'[b][..|schema.columns|][i];
        assert updated.columns[i].primaryKey;
      }
    }
  }

  lemma ExtendedByKeeps(env: Env, schema: Schema, column: ColumnDef, rows: Rows)
    requires RowsValid(schema, rows)
    requires var f := Extender(env, schema.(columns := schema.columns + [column]), column.defaultValue);
             forall id :: id in rows ==> f(rows[id]).Ok?
    ensures var updated := schema.(columns := schema.columns + [column]);
            var rows' := RewriteAll(Extender(env, updated, column.defaultValue), rows);
            ExtendedRows(rows, rows', |schema.columns|) && RowsValid(updated, rows')
  {
    var updated := schema.(columns := schema.columns + [column]);
    var rows' := RewriteAll(Extender(env, updated, column.defaultValue), rows);
    forall id | id in rows
      ensures |rows[id]| == |schema.columns| && |rows'[id]| == |rows[id]| + 1 && rows'[id][..|rows[id]|] == rows[id]
      ensures RowError(updated, rows'[id]).None?
    {
      assert RowError(schema, rows[id]).None?;
      ExtendKeepsCells(env, schema, column, rows[id]);
    }
  }

  /** Adding a column is always undone. It keeps the store right if and only if it is refused, or the
      column is no primary key, or it is one that suits the rows. */
  lemma AddColumnPreserves(env: Env, db: Db, table: string, column: ColumnDef)
    requires StoreOk(db)
    ensures var e := AddColumn(env, db, table, column);
            Reverts(db, e) && (StoreOk(e.db) <==> (e.error.Some? || AddFits(env, db, table, column)))
  {
    var e := AddColumn(env, db, table, column);
    UnwindNothing(db);
    if e.error.None? {
      AddEffect(env, db, table, column);
      var schema, rows: Rows, indexes := db.schemas[table], db.rows[table], db.indexes[table];
      var updated := schema.(columns := schema.columns + [column]);
      var rows' := RewriteAll(Extender(env, updated, column.defaultValue), rows);
      assert TableAt(db, table);
      hide AddColumn, RewriteAll, Extender, TableOk, AddFits, StoreOk, Reverts, Snapshot, SameElsewhere;
      ReplaceElsewhere(db, table, updated, rows', indexes);
      RestoreReverts(e, db, table);
      AddedTableIff(env, db, table, column, rows');
      ReplacedTableIff(db, table, updated, rows', indexes);
    }
  }

  lemma ReplacedTableIff(db: Db, table: string, updated: Schema, rows: Rows, indexes: Indexes)
    requires StoreOk(db) && table in db.schemas && updated.name == table
    ensures StoreOk(Db(db.schemas[table := updated], db.rows[table := rows], db.indexes[table := indexes], db.counters))
            <==> TableOk(updated, rows, indexes, db.counters[table])
  {
    hide TableOk;
    var after := Db(db.schemas[table := updated], db.rows[table := rows], db.indexes[table := indexes], db.counters);
    if TableOk(updated, rows, indexes, db.counters[table]) {
      ReplacedTableOk(db, table, updated, rows, indexes);
    } else {
      WrongTable(after, table);
    }
  }

  lemma AddedTableIff(env: Env, db: Db, table: string, column: ColumnDef, rows': Rows)
    requires KeysAgree(db) && table in db.schemas && !HasColumn(db.schemas[table], column.name)
    requires TableOk(db.schemas[table], db.rows[table], db.indexes[table], db.counters[table])
    requires var updated := db.schemas[table].(columns := db.schemas[table].columns + [column]);
             var f := Extender(env, updated, column.defaultValue);
             (forall id :: id in db.rows[table] ==> f(db.rows[table][id]).Ok?) && rows' == RewriteAll(f, db.rows[table])
    ensures var updated := db.schemas[table].(columns := db.schemas[table].columns + [column]);
            TableOk(updated, rows', db.indexes[table], db.counters[table]) <==> AddFits(env, db, table, column)
  {
    hide TableOk, RewriteAll, Extender, NewKeyFits;
    if column.primaryKey {
      ExtendedKeyIff(env, db.schemas[table], column, db.rows[table], rows', db.indexes[table], db.counters[table]);
    } else {
      ExtendedOk(env, db.schemas[table], column, db.rows[table], rows', db.indexes[table], db.counters[table]);
    }
  }

  lemma WrongTable(db: Db, table: string)
    requires KeysAgree(db) && table in db.schemas
    requires !TableOk(db.schemas[table], db.rows[table], db.indexes[table], db.counters[table])
    ensures !StoreOk(db)
  {
    assert !TableAt(db, table);
  }

  /** The value the new column gets in every row. */
  function AddedCell(env: Env, schema: Schema, column: ColumnDef): Value {
    var v := NormalizeStrictValue(env, column, column.defaultValue);
    if schema.strict && v.Some? then v.value else column.defaultValue
  }

  /** When a new primary-key column suits a table's rows. Beside other key columns it takes away the row-id
      column, if there was one, so every id has to be below the counter already. On its own it gives every
      row the same key, so there can be one row only, with that key as its id if the column is the row id. */
  predicate NewKeyFits(env: Env, schema: Schema, column: ColumnDef, rows: Rows, counter: nat) {
    if HasPrimaryKey(schema) then RowIdColumn(schema).None? || forall id | id in rows :: id < counter
    else
      && (forall a, b | a in rows && b in rows :: a == b)
      && (RowIdColumn(schema.(columns := schema.columns + [column])).Some? ==>
           forall id | id in rows :: id <= MAX_I64 && AddedCell(env, schema, column) == Integer(id))
  }

  /** What a caller must see to before adding a column. */
  predicate AddFits(env: Env, db: Db, table: string, column: ColumnDef) {
    table in db.schemas && table in db.counters && column.primaryKey ==>
      NewKeyFits(env, db.schemas[table], column, RowsOf(db, table), db.counters[table])
  }

  lemma AddedCellIs(env: Env, schema: Schema, column: ColumnDef, row: Row)
    requires |row| == |schema.columns|
    requires ExtendRow(env, schema.(columns := schema.columns + [column]), row, column.defaultValue).Ok?
    ensures var r := ExtendRow(env, schema.(columns := schema.columns + [column]), row, column.defaultValue).value;
            |r| == |row| + 1 && r[|row|] == AddedCell(env, schema, column)
  {
    var updated := schema.(columns := schema.columns + [column]);
    assert (row + [column.defaultValue])[|row|] == column.defaultValue && updated.columns[|row|] == column;
  }

  /** The rows with a key column added: their cells, and the same value behind them. */
  ghost predicate SameAdded(rows: Rows, rows': Rows, width: nat, v: Value) {
    ExtendedRows(rows, rows', width) && forall id :: id in rows ==> rows'[id][width] == v
  }

  lemma KeyedDistinctIff(schema: Schema, column: ColumnDef, rows: Rows, rows': Rows, v: Value)
    requires column.primaryKey && KeysDistinct(schema, rows) && SameAdded(rows, rows', |schema.columns|, v)
    ensures KeysDistinct(schema.(columns := schema.columns + [column]), rows') <==>
            HasPrimaryKey(schema) || forall a, b :: a in rows && b in rows ==> a == b
  {
    var updated, n := schema.(columns := schema.columns + [column]), |schema.columns|;
    assert updated.columns[n].primaryKey && HasPrimaryKey(updated);
    if HasPrimaryKey(schema) {
      forall a, b | a in rows' && b in rows' && a != b ensures !SamePrimaryKey(updated, rows'[a], rows'[b]) {
        assert !SamePrimaryKey(schema, rows[a], rows[b]);
        var i :| 0 <= i < n && schema.columns[i].primaryKey && rows[a][i] != rows[b][i];
        assert rows'[a][..n][i] != rows'[b][..n][i] && updated.columns[i].primaryKey;
      }
    } else {
      forall a, b | a in rows && b in rows ensures SamePrimaryKey(updated, rows'[a], rows'[b]) {
        assert forall i :: 0 <= i < n ==> !updated.columns[i].primaryKey;
      }
      if a, b :| a in rows && b in rows && a != b { assert SamePrimaryKey(updated, rows'[a], rows'[b]); }
    }
  }

  lemma KeyedIdsIff(schema: Schema, column: ColumnDef, rows: Rows, rows': Rows, v: Value, counter: nat)
    requires column.primaryKey && IdsOk(schema, rows, counter) && SameAdded(rows, rows', |schema.columns|, v)
    ensures var updated := schema.(columns := schema.columns + [column]);
            IdsOk(updated, rows', counter) <==>
            if HasPrimaryKey(schema) then RowIdColumn(schema).None? || forall id :: id in rows ==> id < counter
            else RowIdColumn(updated).Some? ==> forall id :: id in rows ==> id <= MAX_I64 && v == Integer(id)
  {
    var updated, n := schema.(columns := schema.columns + [column]), |schema.columns|;
    assert IsKeyColumn(updated, n);
    if HasPrimaryKey(schema) {
      var i :| 0 <= i < n && schema.columns[i].primaryKey;
      assert IsKeyColumn(updated, i);
      assert RowIdColumn(updated).None?;
    } else {
      assert RowIdColumn(schema).None?;
      assert RowIdColumn(updated).Some? ==> RowIdColumn(updated).value == n;
    }
  }

  lemma ExtendedKeyIff(env: Env, schema: Schema, column: ColumnDef, rows: Rows, rows': Rows, indexes: Indexes,
      counter: nat)
    requires TableOk(schema, rows, indexes, counter) && !HasColumn(schema, column.name) && column.primaryKey
    requires var f := Extender(env, schema.(columns := schema.columns + [column]), column.defaultValue);
             (forall id :: id in rows ==> f(rows[id]).Ok?) && rows' == RewriteAll(f, rows)
    ensures TableOk(schema.(columns := schema.columns + [column]), rows', indexes, counter) <==>
            NewKeyFits(env, schema, column, rows, counter)
  {
    var v := AddedCell(env, schema, column);
    ExtendedByKeeps(env, schema, column, rows);
    forall id | id in rows ensures rows'[id][|schema.columns|] == v { AddedCellIs(env, schema, column, rows[id]); }
    ExtendedNames(schema, column);
    ExtendedIndexesOk(Names(schema), column.name, indexes, rows, rows');
    hide Extender, RewriteAll, RowsValid, IndexesOk, KeysDistinct, IdsOk, AddedCell, ExtendedRows;
    KeyedDistinctIff(schema, column, rows, rows', v);
    KeyedIdsIff(schema, column, rows, rows', v, counter);
  }

  /** What adding a column that is not refused does to the store. */
  lemma AddEffect(env: Env, db: Db, table: string, column: ColumnDef)
    requires KeysAgree(db) && AddColumn(env, db, table, column).error.None?
    ensures table in db.schemas && !HasColumn(db.schemas[table], column.name)
    ensures var updated := db.schemas[table].(columns := db.schemas[table].columns + [column]);
            var f := Extender(env, updated, column.defaultValue);
            (forall id :: id in db.rows[table] ==> f(db.rows[table][id]).Ok?) &&
            AddColumn(env, db, table, column) ==
              Effect(Db(db.schemas[table := updated], db.rows[table := RewriteAll(f, db.rows[table])],
                        db.indexes[table := db.indexes[table]], db.counters), [Snapshot(db, table)], None)
  {
    var updated := db.schemas[table].(columns := db.schemas[table].columns + [column]);
    NoRefusal(Extender(env, updated, column.defaultValue), db.rows[table], Sorted(db.rows[table].Keys));
    assert db.indexes[table := db.indexes[table]] == db.indexes;
    hide Extender, ExtendRow, RewriteAll;
  }

  lemma ExtendedOk(env: Env, schema: Schema, column: ColumnDef, rows: Rows, rows': Rows, indexes: Indexes, counter: nat)
    requires TableOk(schema, rows, indexes, counter) && !HasColumn(schema, column.name) && !column.primaryKey
    requires var f := Extender(env, schema.(columns := schema.columns + [column]), column.defaultValue);
             (forall id :: id in rows ==> f(rows[id]).Ok?) && rows' == RewriteAll(f, rows)
    ensures TableOk(schema.(columns := schema.columns + [column]), rows', indexes, counter)
  {
    ExtendedByKeeps(env, schema, column, rows);
    hide TableOk, Extender, RewriteAll, ExtendedRows, RowsValid;
    ExtendedTableOk(schema, column, rows, rows', indexes, counter);
  }

  // ----- Dropping a column -------------------------------------------------

  /** The same positions once the one at `index` is gone. */
  ghost predicate Shifted(before: seq<nat>, after: seq<nat>, index: nat) {
    |after| == |before| && forall k :: 0 <= k < |after| ==>
      (before[k] < index && after[k] == before[k]) || (before[k] > index && after[k] + 1 == before[k])
  }

  lemma ShiftedCons(before: seq<nat>, after: seq<nat>, index: nat, i: nat)
    requires Shifted(before, after, index) && i != index
    ensures Shifted([i] + before, [if i < index then i else i - 1] + after, index)
  {
  }

  lemma {:induction false} KeyColumnsDrop(schema: Schema, index: nat, i: nat)
    requires index < |schema.columns| && !schema.columns[index].primaryKey
    ensures var shorter := schema.(columns := RemoveAt(schema.columns, index));
            Shifted(KeyColumnsFrom(schema, i), KeyColumnsFrom(shorter, if i <= index then i else i - 1), index)
    decreases |schema.columns| - i
  {
    var shorter := schema.(columns := RemoveAt(schema.columns, index));
    var before, j := KeyColumnsFrom(schema, i), if i <= index then i else i - 1;
    if i < |schema.columns| {
      KeyColumnsDrop(schema, index, i + 1);
      var rest := KeyColumnsFrom(schema, i + 1);
      if i != index {
        var after := KeyColumnsFrom(shorter, j + 1);
        assert shorter.columns[j] == schema.columns[i];
        assert before == (if schema.columns[i].primaryKey then [i] + rest else rest);
        assert KeyColumnsFrom(shorter, j) == (if schema.columns[i].primaryKey then [j] + after else after);
        hide KeyColumnsFrom, Shifted;
        ShiftedCons(rest, after, index, i);
      } else {
        assert before == rest;
      }
    }
  }

  lemma KeyOfShortened(names: seq<string>, index: nat, columns: seq<string>, row: Row)
    requires index < |names| == |row| && ColumnsKnown(names, columns) && names[index] !in columns
    ensures ColumnsKnown(RemoveAt(names, index), columns)
    ensures KeyOf(RemoveAt(names, index), columns, RemoveAt(row, index)) == KeyOf(names, columns, row)
  {
    forall c | c in columns
      ensures c in RemoveAt(names, index) &&
              ValueAt(RemoveAt(names, index), c, RemoveAt(row, index)) == ValueAt(names, c, row)
    {
      DropPosition(names, index, c);
    }
  }

  /** Rebuilding gets through when every index's columns exist, or when there are no rows to index. */
  lemma {:induction false} RebuildAll(names: seq<string>, rows: Rows, indexes: Indexes, order: seq<string>)
    requires RowsFit(names, rows)
    requires rows == map[] || forall n :: n in indexes ==> ColumnsKnown(names, indexes[n].meta.columns)
    ensures var (rebuilt, ok) := RebuildIndexes(names, rows, indexes, order);
            ok && rebuilt.Keys == indexes.Keys && forall n :: n in indexes ==>
              rebuilt[n].meta == indexes[n].meta &&
              rebuilt[n].entries == if n in order then Invert(KeyMap(names, indexes[n].meta.columns, rows))
                  else indexes[n].entries
    decreases |order|
  {
    hide FillEntries, Invert, KeyMap;
    if order != [] {
      if order[0] in indexes {
        var index := indexes[order[0]];
        var filled := index.(entries := Invert(KeyMap(names, index.meta.columns, rows)));
        FillAll(names, index.meta.columns, rows);
        assert RebuildIndexes(names, rows, indexes, order) ==
            RebuildIndexes(names, rows, indexes[order[0] := filled], order[1..]);
        hide RebuildIndexes, FillEntries, Invert, KeyMap, RowsFit;
        RebuildAll(names, rows, indexes[order[0] := filled], order[1..]);
        assert order == [order[0]] + order[1..];
      } else {
        RebuildAll(names, rows, indexes, order[1..]);
      }
    }
  }

  /** No index of the table names the column: what a caller must see to before dropping it. */
  predicate Unindexed(indexes: Indexes, name: string) {
    forall n | n in indexes :: name !in indexes[n].meta.columns
  }

  lemma ShortenedIndexesOk(names: seq<string>, index: nat, indexes: Indexes, rows: Rows, order: seq<string>)
    requires IndexesOk(names, indexes, rows) && RowsFit(names, rows) && index < |names|
    requires rows == map[] || Unindexed(indexes, names[index])
    requires forall n :: n in indexes ==> n in order
    ensures var (rebuilt, ok) := RebuildIndexes(RemoveAt(names, index), ShortenRows(rows, index), indexes, order);
            ok && IndexesOk(RemoveAt(names, index), rebuilt, ShortenRows(rows, index))
  {
    var names', rows' := RemoveAt(names, index), ShortenRows(rows, index);
    forall n | n in indexes
      ensures rows != map[] ==> ColumnsKnown(names', indexes[n].meta.columns)
      ensures KeyMap(names', indexes[n].meta.columns, rows') == KeyMap(names, indexes[n].meta.columns, rows)
    {
      assert IndexOk(names, indexes[n], rows);
      if id :| id in rows { KeyOfShortened(names, index, indexes[n].meta.columns, rows[id]); }
      forall id | id in rows
        ensures KeyOf(names', indexes[n].meta.columns, rows'[id]) == KeyOf(names, indexes[n].meta.columns, rows[id])
      {
        KeyOfShortened(names, index, indexes[n].meta.columns, rows[id]);
      }
    }
    RebuildAll(names', rows', indexes, order);
    var rebuilt := RebuildIndexes(names', rows', indexes, order).0;
    forall n | n in rebuilt ensures rebuilt[n].meta.name == n && IndexOk(names', rebuilt[n], rows') {
      assert IndexOk(names, indexes[n], rows);
    }
  }

  lemma ShortenedRowsValid(schema: Schema, index: nat, rows: Rows)
    requires index < |schema.columns| && RowsValid(schema, rows)
    ensures RowsValid(schema.(columns := RemoveAt(schema.columns, index)), ShortenRows(rows, index))
  {
    var updated, rows' := schema.(columns := RemoveAt(schema.columns, index)), ShortenRows(rows, index);
    forall id | id in rows' ensures RowError(updated, rows'[id]).None? {
      assert RowError(schema, rows[id]).None?;
      assert rows'[id] == RemoveAt(rows[id], index);
      forall j | 0 <= j < |rows'[id]| ensures ColumnError(updated, updated.columns[j], rows'[id][j]).None? {
        assert ColumnError(schema, schema.columns[if j < index then j else j + 1],
            rows[id][if j < index then j else j + 1]).None?;
      }
    }
  }

  lemma ShortenedKeysDiffer(schema: Schema, index: nat, a: Row, b: Row)
    requires index < |schema.columns| == |a| == |b| && !schema.columns[index].primaryKey &&
             !SamePrimaryKey(schema, a, b)
    ensures !SamePrimaryKey(schema.(columns := RemoveAt(schema.columns, index)), RemoveAt(a, index), RemoveAt(b, index))
  {
    var i :| 0 <= i < |schema.columns| && schema.columns[i].primaryKey && a[i] != b[i];
    var i' := if i < index then i else i - 1;
    var updated := schema.(columns := RemoveAt(schema.columns, index));
    assert updated.columns[i'].primaryKey && RemoveAt(a, index)[i'] != RemoveAt(b, index)[i'];
  }

  lemma ShortenedKeysDistinct(schema: Schema, index: nat, rows: Rows)
    requires index < |schema.columns| && !schema.columns[index].primaryKey
    requires RowsValid(schema, rows) && KeysDistinct(schema, rows)
    ensures KeysDistinct(schema.(columns := RemoveAt(schema.columns, index)), ShortenRows(rows, index))
  {
    var updated, rows' := schema.(columns := RemoveAt(schema.columns, index)), ShortenRows(rows, index);
    if HasPrimaryKey(updated) {
      var k :| 0 <= k < |updated.columns| && updated.columns[k].primaryKey;
      assert schema.columns[if k < index then k else k + 1].primaryKey;
      forall a, b | a in rows' && b in rows' && a != b ensures !SamePrimaryKey(updated, rows'[a], rows'[b]) {
        assert !SamePrimaryKey(schema, rows[a], rows[b]);
        assert RowError(schema, rows[a]).None? && RowError(schema, rows[b]).None?;
        ShortenedKeysDiffer(schema, index, rows[a], rows[b]);
      }
    }
  }

  lemma ShortenedIdsOk(schema: Schema, index: nat, rows: Rows, counter: nat)
    requires index < |schema.columns| && !schema.columns[index].primaryKey
    requires RowsValid(schema, rows) && IdsOk(schema, rows, counter)
    ensures IdsOk(schema.(columns := RemoveAt(schema.columns, index)), ShortenRows(rows, index), counter)
  {
    hide RowError;
    hide KeyColumnsFrom, RemoveAt;
    var updated, rows' := schema.(columns := RemoveAt(schema.columns, index)), ShortenRows(rows, index);
    KeyColumnsDrop(schema, index, 0);
    forall id | id in rows' ensures |rows[id]| == |schema.columns| && rows'[id] == RemoveAt(rows[id], index) {
      assert RowError(schema, rows[id]).None?;
    }
  }

  /** What a drop that its guards accept does to the store. */
  lemma DropEffect(db: Db, table: string, name: string, order: seq<string>)
    requires table in db.schemas && table in db.rows && table in db.indexes && DropColumn(db.schemas[table], name).Ok?
    ensures var schema, (updated, index) := db.schemas[table], DropColumn(db.schemas[table], name).value;
            index < |schema.columns| && schema.columns[index].name == name && !schema.columns[index].primaryKey &&
            updated == schema.(columns := RemoveAt(schema.columns, index)) &&
            var (rebuilt, ok) :=
                RebuildIndexes(Names(updated), ShortenRows(db.rows[table], index), db.indexes[table], order);
            DropTableColumn(db, table, name, order) ==
              Effect(Db(db.schemas[table := updated], db.rows[table := ShortenRows(db.rows[table], index)],
                        db.indexes[table := rebuilt], db.counters),
                     [Snapshot(db, table)], if ok then None else Some(UnknownColumn))
  {
  }

  /** `drop_column` does not look at indexes, and rebuilds them after it has changed the table. Whatever
      becomes of that, its record brings the table back. */
  lemma DropColumnReverts(db: Db, table: string, name: string, order: seq<string>)
    requires StoreOk(db)
    ensures Reverts(db, DropTableColumn(db, table, name, order))
  {
    var e := DropTableColumn(db, table, name, order);
    UnwindNothing(db);
    if table in db.schemas && DropColumn(db.schemas[table], name).Ok? {
      var (updated, index) := DropColumn(db.schemas[table], name).value;
      var shortened := ShortenRows(db.rows[table], index);
      var rebuilt := RebuildIndexes(Names(updated), shortened, db.indexes[table], order).0;
      ReplaceElsewhere(db, table, updated, shortened, rebuilt);
      RestoreReverts(e, db, table);
    }
  }

  /** With no rows, or with no index on the column, a drop its guards accept goes through and keeps the
      store right. */
  lemma DropColumnPreserves(db: Db, table: string, name: string, order: seq<string>)
    requires StoreOk(db) && table in db.schemas && DropColumn(db.schemas[table], name).Ok?
    requires db.rows[table] == map[] || Unindexed(db.indexes[table], name)
    requires forall n :: n in db.indexes[table] ==> n in order
    ensures var e := DropTableColumn(db, table, name, order); StoreOk(e.db) && e.error.None?
  {
    var schema, rows: Rows, indexes := db.schemas[table], db.rows[table], db.indexes[table];
    var (updated, index) := DropColumn(schema, name).value;
    assert TableAt(db, table);
    forall id | id in rows ensures |rows[id]| == |Names(schema)| { assert RowError(schema, rows[id]).None?; }
    DroppedNames(schema, index);
    ShortenedDistinct(schema, index);
    ShortenedRowsValid(schema, index, rows);
    ShortenedKeysDistinct(schema, index, rows);
    ShortenedIdsOk(schema, index, rows, db.counters[table]);
    ShortenedIndexesOk(Names(schema), index, indexes, rows, order);
    var rebuilt := RebuildIndexes(Names(updated), ShortenRows(rows, index), indexes, order).0;
    ReplacedTableOk(db, table, updated, ShortenRows(rows, index), rebuilt);
  }

  lemma ShortenedDistinct(schema: Schema, index: nat)
    requires index < |schema.columns| && DistinctNames(schema)
    ensures DistinctNames(schema.(columns := RemoveAt(schema.columns, index)))
  {
  }
}
