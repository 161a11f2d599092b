/** Renaming and dropping a column keep the meaning of every CHECK constraint. */
module SchemaChanges {
  import opened Common
  import opened Values
  import opened CheckExprs
  import opened Schemas

  // ----- Renaming ----------------------------------------------------------

  lemma {:induction false} RenamePosition(names: seq<string>, name: string, old_: string, new_: string)
    requires new_ !in names && name in names
    ensures Position(RenameNames(names, old_, new_), RenameName(name, old_, new_)) == Position(names, name)
  {
    var renamed := RenameNames(names, old_, new_);
    assert names[0] in names;
    if names[0] == name {
    } else {
      assert renamed[0] != RenameName(name, old_, new_);
      assert renamed[1..] == RenameNames(names[1..], old_, new_);
      assert name in names[1..];
      RenamePosition(names[1..], name, old_, new_);
    }
  }

  /** An expression over existing columns means the same after old_ is renamed to a fresh name, on
      every row, errors included. */
  lemma {:induction false} RenameKeepsEvaluation(env: Env, names: seq<string>, e: CheckExpr, row: Row, old_: string,
      new_: string)
    requires new_ !in names && ColumnsExist(names, e)
    ensures Evaluate(env, RenameNames(names, old_, new_), Rename(e, old_, new_), row) == Evaluate(env, names, e, row)
  {
    match e
    case And(l, r) =>
      RenameKeepsEvaluation(env, names, l, row, old_, new_);
      RenameKeepsEvaluation(env, names, r, row, old_, new_);
    case Or(l, r) =>
      RenameKeepsEvaluation(env, names, l, row, old_, new_);
      RenameKeepsEvaluation(env, names, r, row, old_, new_);
    case Not(inner) =>
      RenameKeepsEvaluation(env, names, inner, row, old_, new_);
    case Leaf(column, _) =>
      RenamePosition(names, column, old_, new_);
  }

  lemma {:induction false} RenameKeepsExistence(names: seq<string>, e: CheckExpr, old_: string, new_: string)
    requires ColumnsExist(names, e)
    ensures ColumnsExist(RenameNames(names, old_, new_), Rename(e, old_, new_))
  {
    match e
    case And(l, r) => RenameKeepsExistence(names, l, old_, new_); RenameKeepsExistence(names, r, old_, new_);
    case Or(l, r) => RenameKeepsExistence(names, l, old_, new_); RenameKeepsExistence(names, r, old_, new_);
    case Not(inner) => RenameKeepsExistence(names, inner, old_, new_);
    case Leaf(column, _) => RenamedNameExists(names, column, old_, new_);
  }

  lemma RenamedNameExists(names: seq<string>, name: string, old_: string, new_: string)
    requires name in names
    ensures RenameName(name, old_, new_) in RenameNames(names, old_, new_)
  {
    var i :| 0 <= i < |names| && names[i] == name;
    assert RenameNames(names, old_, new_)[i] == RenameName(name, old_, new_);
  }

  lemma {:induction false} RenameColumnChecks(columns: seq<ColumnDef>, renamed: seq<ColumnDef>, old_: string,
      new_: string)
    requires |renamed| == |columns|
    requires forall i :: 0 <= i < |columns| ==> renamed[i].checks == RenameChecks(columns[i].checks, old_, new_)
    ensures ColumnChecks(renamed) == RenameChecks(ColumnChecks(columns), old_, new_)
  {
    if columns != [] {
      RenameColumnChecks(columns[1..], renamed[1..], old_, new_);
      RenameChecksConcat(columns[0].checks, ColumnChecks(columns[1..]), old_, new_);
    }
  }

  lemma RenameChecksConcat(a: seq<CheckExpr>, b: seq<CheckExpr>, old_: string, new_: string)
    ensures RenameChecks(a + b, old_, new_) == RenameChecks(a, old_, new_) + RenameChecks(b, old_, new_)
  {
  }

  /** The schema `rename_column` stores: own references first, then keys that refer to this table. */
  function RenamedSchema(schema: Schema, table: string, old_: string, new_: string): (r: Schema)
    ensures |r.columns| == |schema.columns|
    ensures forall i :: 0 <= i < |r.columns| ==>
      r.columns[i] == RenameColumnDef(schema.columns[i], old_, new_).(foreignKey := r.columns[i].foreignKey)
  {
    RenameRefColumn(RenameColumnReferences(schema, old_, new_), table, old_, new_)
  }

  lemma RenamedNamesAndChecks(schema: Schema, table: string, old_: string, new_: string)
    ensures var r := RenamedSchema(schema, table, old_, new_);
            Names(r) == RenameNames(Names(schema), old_, new_) &&
                AllChecks(r) == RenameChecks(AllChecks(schema), old_, new_)
  {
    var r := RenamedSchema(schema, table, old_, new_);
    RenameColumnChecks(schema.columns, r.columns, old_, new_);
    RenameChecksConcat(ColumnChecks(schema.columns), schema.checks, old_, new_);
  }

  lemma {:induction false} RenameKeepsFirstError(env: Env, names: seq<string>, checks: seq<CheckExpr>, row: Row,
      old_: string, new_: string)
    requires new_ !in names && forall c :: c in checks ==> ColumnsExist(names, c)
    ensures FirstCheckError(env, RenameNames(names, old_, new_), RenameChecks(checks, old_, new_), row) ==
            FirstCheckError(env, names, checks, row)
  {
    if checks != [] {
      RenameKeepsEvaluation(env, names, checks[0], row, old_, new_);
      RenameKeepsFirstError(env, names, checks[1..], row, old_, new_);
      assert RenameChecks(checks, old_, new_)[1..] == RenameChecks(checks[1..], old_, new_);
    }
  }

  /** Renaming a column of a valid schema to a fresh name: a row passes exactly the CHECKs it passed
      before, with the same first failure. */
  lemma RenameColumnKeepsChecks(env: Env, schema: Schema, old_: string, new_: string, row: Row)
    requires ValidMetadata(schema) && !HasColumn(schema, new_)
    ensures CheckError(env, RenamedSchema(schema, schema.name, old_, new_), row) == CheckError(env, schema, row)
  {
    RenamedNamesAndChecks(schema, schema.name, old_, new_);
    RenameKeepsFirstError(env, Names(schema), AllChecks(schema), row, old_, new_);
  }

  lemma RenamedKeysValid(schema: Schema, renamed: Schema, f: ForeignKey, f': ForeignKey, old_: string, new_: string)
    requires Names(renamed) == RenameNames(Names(schema), old_, new_)
    requires ValidForeignKey(schema, f)
    requires f'.columns == RenameNames(f.columns, old_, new_)
    requires f'.refColumns.Some? == f.refColumns.Some?
    requires f'.refColumns.Some? ==> |f'.refColumns.value| == |f.refColumns.value|
    ensures ValidForeignKey(renamed, f')
  {
    forall c | c in f'.columns ensures HasColumn(renamed, c) {
      var i :| 0 <= i < |f'.columns| && f'.columns[i] == c;
      assert f.columns[i] in f.columns;
      RenamedNameExists(Names(schema), f.columns[i], old_, new_);
    }
  }

  /** The re-validation at the end of `rename_column` never fails on a valid schema. */
  lemma RenameKeepsMetadata(schema: Schema, table: string, old_: string, new_: string)
    requires ValidMetadata(schema)
    ensures ValidMetadata(RenamedSchema(schema, table, old_, new_))
  {
    var r := RenamedSchema(schema, table, old_, new_);
    RenamedNamesAndChecks(schema, table, old_, new_);
    forall c | c in AllChecks(r) ensures ColumnsExist(Names(r), c) {
      var i :| 0 <= i < |AllChecks(r)| && AllChecks(r)[i] == c;
      assert AllChecks(schema)[i] in AllChecks(schema);
      RenameKeepsExistence(Names(schema), AllChecks(schema)[i], old_, new_);
    }
    forall f | f in AllForeignKeys(r)
        ensures ValidForeignKey(r, f) { RenamedForeignKeyValid(schema, table, old_, new_, f); }
    forall u | u in r.uniqueConstraints ensures ValidUnique(r, u) { RenamedUniqueValid(schema, table, old_, new_, u); }
  }

  lemma RenamedTableKeyValid(schema: Schema, table: string, old_: string, new_: string, i: nat)
    requires ValidMetadata(schema) && i < |RenamedSchema(schema, table, old_, new_).foreignKeys|
    ensures ValidForeignKey(RenamedSchema(schema, table, old_, new_),
            RenamedSchema(schema, table, old_, new_).foreignKeys[i])
  {
    var r := RenamedSchema(schema, table, old_, new_);
    RenamedNamesAndChecks(schema, table, old_, new_);
    assert schema.foreignKeys[i] in AllForeignKeys(schema);
    RenamedKeysValid(schema, r, schema.foreignKeys[i], r.foreignKeys[i], old_, new_);
  }

  lemma RenamedColumnKeyValid(schema: Schema, table: string, old_: string, new_: string, i: nat)
    requires ValidMetadata(schema) && i < |RenamedSchema(schema, table, old_, new_).columns|
    requires RenamedSchema(schema, table, old_, new_).columns[i].foreignKey.Some?
    ensures ValidForeignKey(RenamedSchema(schema, table, old_, new_),
            RenamedSchema(schema, table, old_, new_).columns[i].foreignKey.value)
  {
    var r := RenamedSchema(schema, table, old_, new_);
    RenamedNamesAndChecks(schema, table, old_, new_);
    var own := schema.columns[i].foreignKey.value;
    assert own in ColumnForeignKeys(schema.columns);
    assert own in AllForeignKeys(schema);
    RenamedKeysValid(schema, r, own, r.columns[i].foreignKey.value, old_, new_);
  }

  lemma RenamedForeignKeyValid(schema: Schema, table: string, old_: string, new_: string, f: ForeignKey)
    requires ValidMetadata(schema) && f in AllForeignKeys(RenamedSchema(schema, table, old_, new_))
    ensures ValidForeignKey(RenamedSchema(schema, table, old_, new_), f)
  {
    var r := RenamedSchema(schema, table, old_, new_);
    if f in r.foreignKeys {
      var i :| 0 <= i < |r.foreignKeys| && r.foreignKeys[i] == f;
      RenamedTableKeyValid(schema, table, old_, new_, i);
    } else {
      var i :| 0 <= i < |r.columns| && r.columns[i].foreignKey == Some(f);
      RenamedColumnKeyValid(schema, table, old_, new_, i);
    }
  }

  lemma RenamedUniqueValid(schema: Schema, table: string, old_: string, new_: string, u: seq<string>)
    requires ValidMetadata(schema) && u in RenamedSchema(schema, table, old_, new_).uniqueConstraints
    ensures ValidUnique(RenamedSchema(schema, table, old_, new_), u)
  {
    var r := RenamedSchema(schema, table, old_, new_);
    RenamedNamesAndChecks(schema, table, old_, new_);
    var i :| 0 <= i < |r.uniqueConstraints| && r.uniqueConstraints[i] == u;
    var v := schema.uniqueConstraints[i];
    assert v in schema.uniqueConstraints;
    assert u == RenameNames(v, old_, new_);
    forall c | c in u ensures HasColumn(r, c) {
      var j :| 0 <= j < |u| && u[j] == c;
      assert v[j] in v;
      RenamedNameExists(Names(schema), v[j], old_, new_);
    }
  }

  // ----- Dropping ----------------------------------------------------------

  lemma {:induction false} DropPosition(names: seq<string>, index: nat, name: string)
    requires index < |names| && names[index] != name
    ensures var before, after := Position(names, name), Position(RemoveAt(names, index), name);
            before.Some? == after.Some? &&
            (before.Some? ==> before.value != index && after.value == if before.value < index then before.value
                else before.value - 1)
  {
    if names[0] == name {
    } else if index == 0 {
      assert RemoveAt(names, 0) == names[1..];
    } else {
      assert RemoveAt(names, index)[1..] == RemoveAt(names[1..], index - 1);
      DropPosition(names[1..], index - 1, name);
    }
  }

  /** An expression that does not mention the removed column means the same on the shortened row. */
  lemma {:induction false} DropKeepsEvaluation(env: Env, names: seq<string>, index: nat, e: CheckExpr, row: Row)
    requires index < |names| == |row| && !References(e, names[index])
    ensures Evaluate(env, RemoveAt(names, index), e, RemoveAt(row, index)) == Evaluate(env, names, e, row)
  {
    match e
    case And(l, r) => DropKeepsEvaluation(env, names, index, l, row); DropKeepsEvaluation(env, names, index, r, row);
    case Or(l, r) => DropKeepsEvaluation(env, names, index, l, row); DropKeepsEvaluation(env, names, index, r, row);
    case Not(inner) => DropKeepsEvaluation(env, names, index, inner, row);
    case Leaf(column, _) => DropPosition(names, index, column);
  }

  lemma DroppedNames(schema: Schema, index: nat)
    requires index < |schema.columns|
    ensures Names(schema.(columns := RemoveAt(schema.columns, index))) == RemoveAt(Names(schema), index)
  {
  }

  lemma DroppedChecksRemain(schema: Schema, index: nat, c: CheckExpr)
    requires index < |schema.columns|
    requires c in AllChecks(schema.(columns := RemoveAt(schema.columns, index)))
    ensures c in AllChecks(schema)
  {
    var updated := schema.(columns := RemoveAt(schema.columns, index));
    if c !in schema.checks {
      var i :| 0 <= i < |updated.columns| && c in updated.columns[i].checks;
      assert c in schema.columns[if i < index then i else i + 1].checks;
    }
  }

  /** When `drop_column` accepts, every CHECK that remains gives the same answer on the shortened row
      as it gave on the full one. */
  lemma DropColumnKeepsChecks(env: Env, schema: Schema, name: string, row: Row, c: CheckExpr)
    requires DropColumn(schema, name).Ok? && |row| == |schema.columns|
    requires c in AllChecks(DropColumn(schema, name).value.0)
    ensures var (updated, index) := DropColumn(schema, name).value;
            Evaluate(env, Names(updated), c, RemoveAt(row, index)) == Evaluate(env, Names(schema), c, row)
  {
    var (updated, index) := DropColumn(schema, name).value;
    DroppedChecksRemain(schema, index, c);
    DroppedNames(schema, index);
    DropKeepsEvaluation(env, Names(schema), index, c, row);
  }

  lemma {:induction false} DropKeepsFirstError(env: Env, names: seq<string>, index: nat, checks: seq<CheckExpr>,
      row: Row)
    requires index < |names| == |row| && forall c :: c in checks ==> !References(c, names[index])
    ensures FirstCheckError(env, RemoveAt(names, index), checks, RemoveAt(row, index)) ==
            FirstCheckError(env, names, checks, row)
  {
    if checks != [] {
      DropKeepsEvaluation(env, names, index, checks[0], row);
      DropKeepsFirstError(env, names, index, checks[1..], row);
    }
  }

  lemma {:induction false} NoCheckError(env: Env, names: seq<string>, checks: seq<CheckExpr>, row: Row)
    ensures FirstCheckError(env, names, checks, row).None? <==>
            forall c :: c in checks ==>
                Evaluate(env, names, c, row).Ok? && Evaluate(env, names, c, row) != Ok(Some(false))
  {
    if checks != [] {
      NoCheckError(env, names, checks[1..], row);
      assert checks[0] in checks && forall c :: c in checks <==> c == checks[0] || c in checks[1..];
    }
  }

  /** The shortened row fails exactly the first remaining CHECK that the full row fails; a row that
      passed all CHECKs still does. */
  lemma DropColumnKeepsCheckError(env: Env, schema: Schema, name: string, row: Row)
    requires DropColumn(schema, name).Ok? && |row| == |schema.columns|
    ensures var (updated, index) := DropColumn(schema, name).value;
            CheckError(env, updated, RemoveAt(row, index)) ==
                FirstCheckError(env, Names(schema), AllChecks(updated), row) &&
            (CheckError(env, schema, row).None? ==> CheckError(env, updated, RemoveAt(row, index)).None?)
  {
    var (updated, index) := DropColumn(schema, name).value;
    forall c | c in AllChecks(updated) ensures c in AllChecks(schema) { DroppedChecksRemain(schema, index, c); }
    DroppedNames(schema, index);
    DropKeepsFirstError(env, Names(schema), index, AllChecks(updated), row);
    NoCheckError(env, Names(schema), AllChecks(updated), row);
    NoCheckError(env, Names(schema), AllChecks(schema), row);
  }

  lemma DropKeepsName(schema: Schema, index: nat, name: string)
    requires index < |schema.columns| && HasColumn(schema, name) && schema.columns[index].name != name
    ensures HasColumn(schema.(columns := RemoveAt(schema.columns, index)), name)
  {
    DroppedNames(schema, index);
    DropPosition(Names(schema), index, name);
  }

  lemma {:induction false} DropKeepsExistence(schema: Schema, index: nat, e: CheckExpr)
    requires index < |schema.columns| && ColumnsExist(Names(schema), e) && !References(e, schema.columns[index].name)
    ensures ColumnsExist(Names(schema.(columns := RemoveAt(schema.columns, index))), e)
  {
    match e
    case And(l, r) => DropKeepsExistence(schema, index, l); DropKeepsExistence(schema, index, r);
    case Or(l, r) => DropKeepsExistence(schema, index, l); DropKeepsExistence(schema, index, r);
    case Not(inner) => DropKeepsExistence(schema, index, inner);
    case Leaf(column, _) => DropKeepsName(schema, index, column);
  }

  /** On a valid schema the final re-validation of `drop_column` cannot fail: the drop succeeds
      exactly when the column exists and every guard passes. */
  lemma DropColumnSucceedsIff(schema: Schema, name: string)
    requires ValidMetadata(schema)
    ensures DropColumn(schema, name).Ok? <==>
      HasColumn(schema, name) && DropAllowed(schema, name, Position(Names(schema), name).value)
  {
    if HasColumn(schema, name) && DropAllowed(schema, name, Position(Names(schema), name).value) {
      var index := Position(Names(schema), name).value;
      var updated := schema.(columns := RemoveAt(schema.columns, index));
      forall c | c in AllChecks(updated) ensures ColumnsExist(Names(updated), c) {
        DroppedChecksRemain(schema, index, c);
        DropKeepsExistence(schema, index, c);
      }
      forall f | f in AllForeignKeys(updated) ensures ValidForeignKey(updated, f) {
        if f !in schema.foreignKeys {
          var i :| 0 <= i < |updated.columns| && updated.columns[i].foreignKey == Some(f);
          assert schema.columns[if i < index then i else i + 1].foreignKey == Some(f);
        }
        assert f in AllForeignKeys(schema);
        forall c | c in f.columns ensures HasColumn(updated, c) {
          DropKeepsName(schema, index, c);
        }
      }
      forall u | u in updated.uniqueConstraints ensures ValidUnique(updated, u) {
        forall c | c in u ensures HasColumn(updated, c) {
          DropKeepsName(schema, index, c);
        }
      }
    }
  }

  /** Nothing else in the schema speaks of the column: neither its own constraints, nor the text of another
      column's generation, nor a key of the table that refers back to the table's own column. */
  predicate Unmentioned(schema: Schema, name: string, index: nat)
    requires index < |schema.columns|
  {
    var own := schema.columns[index];
    && (forall c | c in own.checks :: !References(c, name))
    && (own.foreignKey.Some? ==> name !in own.foreignKey.value.columns)
    && (forall i | 0 <= i < |schema.columns| ::
        i != index && schema.columns[i].generated.Some? ==> !Mentions(schema.columns[i].generated.value, name))
    && (forall f | f in schema.foreignKeys :: schema.name != "" ==> !RefersTo(f, schema.name, name))
    && (forall i | 0 <= i < |schema.columns| ::
        schema.columns[i].foreignKey.Some? ==> !RefersTo(schema.columns[i].foreignKey.value, schema.name, name))
  }

  predicate RefersTo(f: ForeignKey, table: string, column: string) {
    f.refTable == table && f.refColumns.Some? && column in f.refColumns.value
  }

  lemma {:induction false} NoReferenceWithout(names: seq<string>, e: CheckExpr, name: string)
    requires ColumnsExist(names, e) && name !in names
    ensures !References(e, name)
  {
    match e
    case And(l, r) => NoReferenceWithout(names, l, name); NoReferenceWithout(names, r, name);
    case Or(l, r) => NoReferenceWithout(names, l, name); NoReferenceWithout(names, r, name);
    case Not(inner) => NoReferenceWithout(names, inner, name);
    case Leaf(_, _) =>
  }

  lemma AllowedUnmentioned(schema: Schema, index: nat)
    requires index < |schema.columns| && DistinctNames(schema) && DropAllowed(schema, schema.columns[index].name, index)
    ensures |schema.columns| >= 2 && !schema.columns[index].primaryKey
    ensures Unmentioned(schema, schema.columns[index].name, index)
  {
    hide Mentions, References;
    var name, own := schema.columns[index].name, schema.columns[index];
    forall c | c in own.checks ensures !References(c, name) { assert c in AllChecks(schema); }
    forall i | 0 <= i < |schema.columns| && schema.columns[i].foreignKey.Some?
      ensures schema.columns[i].foreignKey.value in ColumnForeignKeys(schema.columns)
    {
    }
    if own.foreignKey.Some? { assert own.foreignKey.value in AllForeignKeys(schema); }
    forall i | 0 <= i < |schema.columns| && i != index && schema.columns[i].generated.Some?
      ensures !Mentions(schema.columns[i].generated.value, name)
    {
      assert schema.columns[i] in schema.columns && schema.columns[i].name != name;
    }
  }

  lemma UnmentionedAllowed(schema: Schema, index: nat)
    requires index < |schema.columns| && DistinctNames(schema) && |schema.columns| >= 2 &&
             !schema.columns[index].primaryKey
    requires ValidMetadata(schema.(columns := RemoveAt(schema.columns, index)))
    requires Unmentioned(schema, schema.columns[index].name, index)
    ensures DropAllowed(schema, schema.columns[index].name, index)
  {
    hide Mentions, References, ColumnsExist;
    var name, updated := schema.columns[index].name, schema.(columns := RemoveAt(schema.columns, index));
    DroppedNames(schema, index);
    assert name !in Names(updated);
    forall c | c in AllChecks(schema) ensures !References(c, name) {
      if c !in schema.columns[index].checks {
        RemainingCheck(schema, index, c);
        NoReferenceWithout(Names(updated), c, name);
      }
    }
    forall f | f in AllForeignKeys(schema) ensures name !in f.columns {
      if schema.columns[index].foreignKey != Some(f) {
        RemainingKey(schema, index, f);
        assert ValidForeignKey(updated, f);
      }
    }
    forall u | u in schema.uniqueConstraints ensures name !in u { assert ValidUnique(updated, u); }
  }

  /** A column of a right schema can be dropped exactly when it is not the last one and no primary key, the
      constraints that remain still name existing columns, and nothing else mentions it. */
  lemma DropColumnIff(schema: Schema, index: nat)
    requires index < |schema.columns| && ValidMetadata(schema) && DistinctNames(schema)
    ensures DropColumn(schema, schema.columns[index].name).Ok? <==>
            |schema.columns| >= 2 && !schema.columns[index].primaryKey &&
            ValidMetadata(schema.(columns := RemoveAt(schema.columns, index))) &&
            Unmentioned(schema, schema.columns[index].name, index)
    ensures DropColumn(schema, schema.columns[index].name).Ok? ==>
            DropColumn(schema, schema.columns[index].name).value ==
            (schema.(columns := RemoveAt(schema.columns, index)), index)
  {
    hide ValidMetadata, DropAllowed, Unmentioned;
    var name, updated := schema.columns[index].name, schema.(columns := RemoveAt(schema.columns, index));
    assert Names(schema)[index] == name && Position(Names(schema), name) == Some(index);
    if DropAllowed(schema, name, index) { AllowedUnmentioned(schema, index); }
    if |schema.columns| >= 2 && !schema.columns[index].primaryKey && ValidMetadata(updated) &&
        Unmentioned(schema, name, index) {
      UnmentionedAllowed(schema, index);
    }
    DropColumnSucceedsIff(schema, name);
  }

  lemma RemainingCheck(schema: Schema, index: nat, c: CheckExpr)
    requires index < |schema.columns| && c in AllChecks(schema) && c !in schema.columns[index].checks
    ensures c in AllChecks(schema.(columns := RemoveAt(schema.columns, index)))
  {
    var updated := schema.(columns := RemoveAt(schema.columns, index));
    if c !in schema.checks {
      var i :| 0 <= i < |schema.columns| && c in schema.columns[i].checks;
      assert updated.columns[if i < index then i else i - 1] == schema.columns[i];
    }
  }

  lemma RemainingKey(schema: Schema, index: nat, f: ForeignKey)
    requires index < |schema.columns| && f in AllForeignKeys(schema) && schema.columns[index].foreignKey != Some(f)
    ensures f in AllForeignKeys(schema.(columns := RemoveAt(schema.columns, index)))
  {
    var updated := schema.(columns := RemoveAt(schema.columns, index));
    if f !in schema.foreignKeys {
      var i :| 0 <= i < |schema.columns| && schema.columns[i].foreignKey == Some(f);
      assert updated.columns[if i < index then i else i - 1] == schema.columns[i];
    }
  }

  // ----- Valid metadata -----------------------------------------------------

  lemma {:induction false} ExistIff(names: seq<string>, e: CheckExpr)
    ensures ColumnsExist(names, e) <==> forall name :: References(e, name) ==> name in names
  {
    match e
    case And(l, r) => ExistIff(names, l); ExistIff(names, r);
        assert forall name :: References(e, name) <==> References(l, name) || References(r, name);
    case Or(l, r) => ExistIff(names, l); ExistIff(names, r);
        assert forall name :: References(e, name) <==> References(l, name) || References(r, name);
    case Not(inner) => ExistIff(names, inner);
        assert forall name :: References(e, name) <==> References(inner, name);
    case Leaf(column, _) => assert forall name :: References(e, name) <==> name == column;
  }

  /** A foreign key names existing columns of its table, at least one, and as many of the other's. */
  predicate KeyFits(schema: Schema, f: ForeignKey) {
    |f.columns| > 0 && (f.refColumns.Some? ==> |f.refColumns.value| == |f.columns|) &&
    forall i | 0 <= i < |f.columns| :: HasColumn(schema, f.columns[i])
  }

  predicate UniqueFits(schema: Schema, u: seq<string>) {
    |u| > 0 && forall i | 0 <= i < |u| :: HasColumn(schema, u[i])
  }

  lemma KeyFitsIff(schema: Schema, f: ForeignKey)
    ensures ValidForeignKey(schema, f) <==> KeyFits(schema, f)
  {
    hide HasColumn;
  }

  lemma UniqueFitsIff(schema: Schema, u: seq<string>)
    ensures ValidUnique(schema, u) <==> UniqueFits(schema, u)
  {
    hide HasColumn;
  }

  lemma ChecksNameColumns(schema: Schema)
    ensures (forall c :: c in AllChecks(schema) ==> ColumnsExist(Names(schema), c)) <==>
            forall c, name :: c in AllChecks(schema) && References(c, name) ==> HasColumn(schema, name)
  {
    hide ColumnsExist, References, AllChecks;
    forall c | c in AllChecks(schema)
      ensures ColumnsExist(Names(schema), c) <==> forall name :: References(c, name) ==> HasColumn(schema, name)
    {
      ExistIff(Names(schema), c);
    }
  }

  /** The metadata is valid exactly when every column that a CHECK refers to, in a column's definition or the
      table's, is there, the foreign keys fit, and so do the unique constraints. */
  lemma MetadataValidIff(schema: Schema)
    ensures ValidMetadata(schema) <==>
            (forall c, name :: c in AllChecks(schema) && References(c, name) ==> HasColumn(schema, name)) &&
            (forall f :: f in schema.foreignKeys ==> KeyFits(schema, f)) &&
            (forall i :: 0 <= i < |schema.columns| && schema.columns[i].foreignKey.Some? ==>
              KeyFits(schema, schema.columns[i].foreignKey.value)) &&
            (forall u :: u in schema.uniqueConstraints ==> UniqueFits(schema, u))
  {
    ChecksNameColumns(schema);
    hide ColumnsExist, References, AllChecks, HasColumn, ValidForeignKey, KeyFits, ValidUnique, UniqueFits;
    forall f ensures ValidForeignKey(schema, f) <==> KeyFits(schema, f) { KeyFitsIff(schema, f); }
    forall u ensures ValidUnique(schema, u) <==> UniqueFits(schema, u) { UniqueFitsIff(schema, u); }
    assert forall f :: f in AllForeignKeys(schema) <==>
      f in schema.foreignKeys || exists i :: 0 <= i < |schema.columns| && schema.columns[i].foreignKey == Some(f);
    forall i | 0 <= i < |schema.columns| && schema.columns[i].foreignKey.Some?
      ensures schema.columns[i].foreignKey.value in AllForeignKeys(schema)
    {
      assert schema.columns[i].foreignKey == Some(schema.columns[i].foreignKey.value);
    }
  }
}
