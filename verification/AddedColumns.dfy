/** When a column can be added to a table. */
module AddedColumns {
  import opened Common
  import opened Values
  import opened Schemas
  import opened CheckMeanings
  import opened Ascending
  import opened StoreSpec
  import opened StoreInvariant

  /** What an existing row gets in the new column: the default, converted in a STRICT table when it is not of
      the column's type and that type is INTEGER, REAL or TEXT. */
  function Stored(env: Env, strict: bool, column: ColumnDef): Option<Value> {
    var v, t := column.defaultValue, column.columnType;
    if !strict || v.Null? || TypeSuits(t, v) then Some(v)
    else if t in {IntegerType, RealType, TextType} then env.convert(t, v)
    else None
  }

  /** The row extended by the new cell may stand in the table; CHECKs count even when they are switched off. */
  ghost predicate Extends(env: Env, updated: Schema, column: ColumnDef, row: Row) {
    var v := Stored(env, updated.strict, column);
    v.Some? && CellSuits(updated, column, v.value) && ChecksHold(env, updated, row + [v.value])
  }

  lemma StoredIs(env: Env, strict: bool, column: ColumnDef)
    ensures Stored(env, strict, column) ==
            if strict then NormalizeStrictValue(env, column, column.defaultValue) else Some(column.defaultValue)
  {
  }

  lemma NormalizedIs(env: Env, schema: Schema, column: ColumnDef, row: Row)
    requires RowError(schema, row).None?
    ensures var updated := schema.(columns := schema.columns + [column]);
            var v, r := Stored(env, schema.strict, column),
                NormalizeStrictRow(env, updated, row + [column.defaultValue]);
            r.Ok? == v.Some? && (v.Some? ==> r.value == row + [v.value])
  {
    var updated, candidate := schema.(columns := schema.columns + [column]), row + [column.defaultValue];
    StoredIs(env, schema.strict, column);
    hide Stored;
    if schema.strict {
      forall j | 0 <= j < |row| ensures NormalizeStrictValue(env, updated.columns[j], candidate[j]) == Some(row[j]) {
        assert ColumnError(schema, schema.columns[j], row[j]).None?;
      }
      assert NormalizeStrictValue(env, updated.columns[|row|], candidate[|row|]) ==
        Stored(env, schema.strict, column);
      var n := NormalizeFrom(env, updated, candidate, 0);
      if n.Some? {
        forall j | 0 <= j < |candidate|
          ensures Some(n.value[j]) == NormalizeStrictValue(env, updated.columns[j], candidate[j])
        {
          assert n.value[j - 0] == n.value[j];
        }
        assert n.value == row + [Stored(env, schema.strict, column).value];
      }
    }
  }

  lemma ExtendsIff(env: Env, schema: Schema, column: ColumnDef, row: Row)
    requires RowError(schema, row).None?
    ensures var updated := schema.(columns := schema.columns + [column]);
            ExtendRow(env, updated, row, column.defaultValue).Ok? <==> Extends(env, updated, column, row)
  {
    var updated := schema.(columns := schema.columns + [column]);
    NormalizedIs(env, schema, column, row);
    var v := Stored(env, schema.strict, column);
    hide Stored, NormalizeStrictRow;
    if v.Some? {
      var extended := row + [v.value];
      RowValidIff(schema, row);
      RowValidIff(updated, extended);
      ChecksKeptIff(env, updated, extended);
      hide RowError, CheckError, ChecksHold;
      forall j | 0 <= j < |row| ensures CellSuits(updated, updated.columns[j], extended[j]) {
        assert CellSuits(schema, schema.columns[j], row[j]);
      }
      assert updated.columns[|row|] == column && extended[|row|] == v.value;
    }
  }

  lemma {:induction false} RefusalIff(f: Row -> Result<Row>, rows: Rows, ids: seq<nat>)
    requires forall id :: id in ids ==> id in rows
    ensures FirstRefusal(f, rows, ids).None? <==> forall id :: id in ids ==> f(rows[id]).Ok?
  {
    if ids != [] {
      RefusalIff(f, rows, ids[1..]);
      assert ids[0] in ids && forall id :: id in ids <==> id == ids[0] || id in ids[1..];
    }
  }

  /** A column is added exactly when the table is there, the name is new, the constraints name existing
      columns, and every row can be extended. */
  lemma AddColumnSucceedsIff(env: Env, db: Db, table: string, column: ColumnDef)
    requires StoreOk(db)
    ensures AddColumn(env, db, table, column).error.None? <==>
            table in db.schemas && !HasColumn(db.schemas[table], column.name) &&
            var updated := db.schemas[table].(columns := db.schemas[table].columns + [column]);
            ValidMetadata(updated) &&
            forall id :: id in db.rows[table] ==> Extends(env, updated, column, db.rows[table][id])
  {
    if table in db.schemas && !HasColumn(db.schemas[table], column.name) {
      var schema, rows := db.schemas[table], db.rows[table];
      var updated := schema.(columns := schema.columns + [column]);
      var f := Extender(env, updated, column.defaultValue);
      assert TableAt(db, table);
      forall id | id in rows ensures f(rows[id]).Ok? <==> Extends(env, updated, column, rows[id]) {
        assert RowError(schema, rows[id]).None?;
        ExtendsIff(env, schema, column, rows[id]);
      }
      RefusalIff(f, rows, Sorted(rows.Keys));
      hide Extender, ExtendRow, Extends, StoreOk, ValidMetadata;
    }
  }
}
