/** Table schemas: columns, constraints and the validations a row or a schema must pass. */
module Schemas {
  import opened Common
  import opened Values
  import opened CheckExprs

  datatype SortOrder = Asc | Desc

  datatype ForeignKey = ForeignKey(columns: seq<string>, refTable: string, refColumns: Option<seq<string>>)

  datatype ColumnDef = ColumnDef(
    name: string,
    columnType: ColumnType,
    collation: Option<string>,
    nullable: bool,
    primaryKey: bool,
    primaryKeySort: Option<SortOrder>,
    defaultValue: Value,
    checks: seq<CheckExpr>,
    foreignKey: Option<ForeignKey>,
    generated: Option<string>)

  datatype Schema = Schema(
    name: string,
    columns: seq<ColumnDef>,
    checks: seq<CheckExpr>,
    foreignKeys: seq<ForeignKey>,
    primaryKeyConstraint: Option<seq<string>>,
    uniqueConstraints: seq<seq<string>>,
    strict: bool,
    withoutRowid: bool)

  function Names(schema: Schema): (names: seq<string>)
    ensures |names| == |schema.columns|
    ensures forall i :: 0 <= i < |names| ==> names[i] == schema.columns[i].name
  {
    seq(|schema.columns|, i requires 0 <= i < |schema.columns| => schema.columns[i].name)
  }

  predicate HasColumn(schema: Schema, name: string) { name in Names(schema) }

  ghost predicate DistinctNames(schema: Schema) {
    forall i, j :: 0 <= i < j < |schema.columns| ==> schema.columns[i].name != schema.columns[j].name
  }

  // ----- Row validation ----------------------------------------------------

  function ColumnError(schema: Schema, column: ColumnDef, v: Value): Option<Error> {
    if v.Null? then
      if !schema.strict && column.primaryKey && column.columnType == IntegerType && column.primaryKeySort == Some(Desc)
          then None
      else if column.primaryKey then Some(NullNotAllowed)
      else if !column.nullable then Some(NullNotAllowed)
      else None
    else if !MatchesValue(column.columnType, v) then Some(TypeMismatch)
    else None
  }

  function RowErrorFrom(schema: Schema, row: Row, i: nat): (r: Option<Error>)
    requires i <= |row| == |schema.columns|
    ensures r.None? <==> forall j :: i <= j < |row| ==> ColumnError(schema, schema.columns[j], row[j]).None?
    decreases |row| - i
  {
    if i == |row| then None
    else
      var e := ColumnError(schema, schema.columns[i], row[i]);
      if e.Some? then e else RowErrorFrom(schema, row, i + 1)
  }

  /** `validate_row_values`: the first column whose value is refused, if any. */
  function RowError(schema: Schema, row: Row): (r: Option<Error>)
    ensures r.None? <==> (|row| == |schema.columns| &&
      forall j :: 0 <= j < |row| ==> ColumnError(schema, schema.columns[j], row[j]).None?)
  {
    if |row| != |schema.columns| then Some(WrongWidth) else RowErrorFrom(schema, row, 0)
  }

  /** `normalize_strict_value`. */
  function NormalizeStrictValue(env: Env, column: ColumnDef, v: Value): Option<Value> {
    if v.Null? || column.columnType.AnyType? then Some(v)
    else if MatchesValue(column.columnType, v) then Some(v)
    else if column.columnType in {IntegerType, RealType, TextType} then env.convert(column.columnType, v)
    else None
  }

  function NormalizeFrom(env: Env, schema: Schema, row: Row, i: nat): (r: Option<Row>)
    requires i <= |row| == |schema.columns|
    ensures r.Some? ==> |r.value| == |row| - i
    ensures r.Some? ==> forall j :: i <= j < |row| ==>
            NormalizeStrictValue(env, schema.columns[j], row[j]) == Some(r.value[j - i])
    ensures r.None? ==> exists j :: i <= j < |row| && NormalizeStrictValue(env, schema.columns[j], row[j]).None?
    decreases |row| - i
  {
    if i == |row| then Some([])
    else
      var v := NormalizeStrictValue(env, schema.columns[i], row[i]);
      var rest := NormalizeFrom(env, schema, row, i + 1);
      if v.None? then None else if rest.None? then None else Some([v.value] + rest.value)
  }

  /** `normalize_strict_row_values`. */
  function NormalizeStrictRow(env: Env, schema: Schema, row: Row): Result<Row>
    requires |row| == |schema.columns|
  {
    if !schema.strict then Ok(row)
    else match NormalizeFrom(env, schema, row, 0)
      case None => Err(TypeMismatch)
      case Some(r) => Ok(r)
  }

  // ----- CHECK constraints -------------------------------------------------

  function ColumnChecks(columns: seq<ColumnDef>): (r: seq<CheckExpr>)
    ensures forall c :: c in r <==> exists i :: 0 <= i < |columns| && c in columns[i].checks
  {
    if columns == [] then []
    else
      assert forall c, i :: 0 <= i < |columns| && c in columns[i].checks ==> i == 0 || c in columns[1..][i - 1].checks;
      columns[0].checks + ColumnChecks(columns[1..])
  }

  /** Every CHECK of the table in evaluation order: column by column, then table level. */
  function AllChecks(schema: Schema): seq<CheckExpr> {
    ColumnChecks(schema.columns) + schema.checks
  }

  function FirstCheckError(env: Env, names: seq<string>, checks: seq<CheckExpr>, row: Row): Option<Error> {
    if checks == [] then None
    else match Evaluate(env, names, checks[0], row)
      case Err(e) => Some(e)
      case Ok(Some(false)) => Some(CheckFailed)
      case Ok(_) => FirstCheckError(env, names, checks[1..], row)
  }

  /** `validate_check_constraints_with_like_mode`. */
  function CheckError(env: Env, schema: Schema, row: Row): Option<Error> {
    FirstCheckError(env, Names(schema), AllChecks(schema), row)
  }

  // ----- Primary keys ------------------------------------------------------

  predicate IsKeyColumn(schema: Schema, i: nat) {
    i < |schema.columns| && schema.columns[i].primaryKey
  }

  /** Two rows agree on every column flagged as primary key. */
  predicate SamePrimaryKey(schema: Schema, a: Row, b: Row) {
    forall i | 0 <= i < |schema.columns| :: schema.columns[i].primaryKey ==> i < |a| && i < |b| && a[i] == b[i]
  }

  predicate HasPrimaryKey(schema: Schema) {
    exists i | 0 <= i < |schema.columns| :: schema.columns[i].primaryKey
  }

  /** `validate_primary_key_uniqueness` against a set of rows. */
  predicate PrimaryKeyFree(schema: Schema, row: Row, rows: map<nat, Row>, except: Option<nat>) {
    HasPrimaryKey(schema) ==>
      forall id | id in rows :: Some(id) != except ==> !SamePrimaryKey(schema, rows[id], row)
  }

  function KeyColumnsFrom(schema: Schema, i: nat): (r: seq<nat>)
    ensures forall j: nat :: j in r <==> i <= j && IsKeyColumn(schema, j)
    ensures forall k, l :: 0 <= k < l < |r| ==> r[k] < r[l]
    decreases |schema.columns| - i
  {
    if i >= |schema.columns| then []
    else
      var rest := KeyColumnsFrom(schema, i + 1);
      assert forall k :: 0 <= k < |rest| ==> rest[k] in rest;
      if schema.columns[i].primaryKey then [i] + rest else rest
  }

  /** `integer_primary_key_column_index`: the column that is the row id, if the table has one. */
  function RowIdColumn(schema: Schema): (r: Option<nat>)
    ensures r.Some? ==> IsKeyColumn(schema, r.value) && forall j :: IsKeyColumn(schema, j) ==> j == r.value
  {
    if schema.withoutRowid then None
    else
      var keys := KeyColumnsFrom(schema, 0);
      if |keys| != 1 then None
      else
        assert keys[0] in keys && forall j :: j in keys ==> j == keys[0];
        var column := schema.columns[keys[0]];
        if column.columnType == IntegerType && column.primaryKeySort != Some(Desc) then Some(keys[0]) else None
  }

  // ----- Metadata ----------------------------------------------------------

  function ColumnForeignKeys(columns: seq<ColumnDef>): (r: seq<ForeignKey>)
    ensures forall f :: f in r <==> exists i :: 0 <= i < |columns| && columns[i].foreignKey == Some(f)
  {
    if columns == [] then []
    else
      assert forall f, i :: 0 <= i < |columns| && columns[i].foreignKey == Some(f) ==>
          i == 0 || columns[1..][i - 1].foreignKey == Some(f);
      (if columns[0].foreignKey.Some? then [columns[0].foreignKey.value] else []) + ColumnForeignKeys(columns[1..])
  }

  /** `all_foreign_keys`. */
  function AllForeignKeys(schema: Schema): seq<ForeignKey> {
    schema.foreignKeys + ColumnForeignKeys(schema.columns)
  }

  predicate ValidForeignKey(schema: Schema, f: ForeignKey) {
    && f.columns != []
    && (f.refColumns.Some? ==> |f.refColumns.value| == |f.columns|)
    && forall c | c in f.columns :: HasColumn(schema, c)
  }

  predicate ValidUnique(schema: Schema, columns: seq<string>) {
    columns != [] && forall c | c in columns :: HasColumn(schema, c)
  }

  /** `validate_constraints_metadata`: every constraint names existing columns. */
  predicate ValidMetadata(schema: Schema) {
    && (forall c | c in AllChecks(schema) :: ColumnsExist(Names(schema), c))
    && (forall f | f in AllForeignKeys(schema) :: ValidForeignKey(schema, f))
    && (forall u | u in schema.uniqueConstraints :: ValidUnique(schema, u))
  }

  predicate HasReferencedColumn(f: ForeignKey, column: string) {
    f.refColumns.Some? && column in f.refColumns.value
  }

  // ----- Renaming ----------------------------------------------------------

  function RenameName(name: string, old_: string, new_: string): string {
    if name == old_ then new_ else name
  }

  function RenameNames(names: seq<string>, old_: string, new_: string): (r: seq<string>)
    ensures |r| == |names| && forall i :: 0 <= i < |r| ==> r[i] == RenameName(names[i], old_, new_)
  {
    seq(|names|, i requires 0 <= i < |names| => RenameName(names[i], old_, new_))
  }

  function RenameChecks(checks: seq<CheckExpr>, old_: string, new_: string): (r: seq<CheckExpr>)
    ensures |r| == |checks| && forall i :: 0 <= i < |r| ==> r[i] == Rename(checks[i], old_, new_)
  {
    seq(|checks|, i requires 0 <= i < |checks| => Rename(checks[i], old_, new_))
  }

  /** The child side of a foreign key of the renamed table. */
  function RenameChild(f: ForeignKey, old_: string, new_: string): ForeignKey {
    f.(columns := RenameNames(f.columns, old_, new_))
  }

  /** The parent side, when the key refers to `table`. */
  function RenameParent(f: ForeignKey, table: string, old_: string, new_: string): ForeignKey {
    if f.refTable == table && f.refColumns.Some?
    then f.(refColumns := Some(RenameNames(f.refColumns.value, old_, new_)))
    else f
  }

  function RenameColumnDef(c: ColumnDef, old_: string, new_: string): ColumnDef {
    c.(name := RenameName(c.name, old_, new_),
       checks := RenameChecks(c.checks, old_, new_),
       foreignKey := if c.foreignKey.Some? then Some(RenameChild(c.foreignKey.value, old_, new_)) else None)
  }

  /** `rename_column_references`. The primary-key constraint's column list is left as it is. */
  function RenameColumnReferences(schema: Schema, old_: string, new_: string): (r: Schema)
    ensures |r.columns| == |schema.columns|
    ensures forall i :: 0 <= i < |r.columns| ==> r.columns[i] == RenameColumnDef(schema.columns[i], old_, new_)
  {
    schema.(
      columns :=
          seq(|schema.columns|, i requires 0 <= i < |schema.columns| => RenameColumnDef(schema.columns[i], old_, new_)),
      checks := RenameChecks(schema.checks, old_, new_),
      foreignKeys := seq(|schema.foreignKeys|, i requires 0 <= i < |schema.foreignKeys| =>
        RenameParent(RenameChild(schema.foreignKeys[i], old_, new_), schema.name, old_, new_)),
      uniqueConstraints := seq(|schema.uniqueConstraints|, i requires 0 <= i < |schema.uniqueConstraints| =>
        RenameNames(schema.uniqueConstraints[i], old_, new_)))
  }

  /** The in-place edit of `rename_column_references`, loop by loop. */
  method EditColumnReferences(schema: Schema, old_: string, new_: string) returns (r: Schema)
    ensures r == RenameColumnReferences(schema, old_, new_)
  {
    ghost var target := RenameColumnReferences(schema, old_, new_);
    var columns, checks, foreignKeys, uniques := [], [], [], [];
    for i := 0 to |schema.columns|
      invariant columns == target.columns[..i]
    {
      var column := schema.columns[i];
      if column.name == old_ {
        column := column.(name := new_);
      }
      column := column.(checks := RenameChecks(column.checks, old_, new_));
      if column.foreignKey.Some? {
        column := column.(foreignKey := Some(RenameChild(column.foreignKey.value, old_, new_)));
      }
      assert column == target.columns[i];
      columns := columns + [column];
    }
    for i := 0 to |schema.checks|
      invariant checks == target.checks[..i]
    {
      checks := checks + [Rename(schema.checks[i], old_, new_)];
    }
    for i := 0 to |schema.foreignKeys|
      invariant foreignKeys == target.foreignKeys[..i]
    {
      var f := RenameChild(schema.foreignKeys[i], old_, new_);
      if f.refTable == schema.name && f.refColumns.Some? {
        f := f.(refColumns := Some(RenameNames(f.refColumns.value, old_, new_)));
      }
      foreignKeys := foreignKeys + [f];
    }
    for i := 0 to |schema.uniqueConstraints|
      invariant uniques == target.uniqueConstraints[..i]
    {
      uniques := uniques + [RenameNames(schema.uniqueConstraints[i], old_, new_)];
    }
    r := schema.(columns := columns, checks := checks, foreignKeys := foreignKeys, uniqueConstraints := uniques);
  }

  /** `rename_foreign_key_ref_table`. */
  function RenameRefTable(schema: Schema, old_: string, new_: string): (r: Schema)
    ensures |r.columns| == |schema.columns|
    ensures forall i :: 0 <= i < |r.columns| ==>
            r.columns[i] == schema.columns[i].(foreignKey := r.columns[i].foreignKey)
  {
    schema.(
      columns := seq(|schema.columns|, i requires 0 <= i < |schema.columns| =>
        var c := schema.columns[i];
        if c.foreignKey.Some? then c.(foreignKey := Some(RetargetKey(c.foreignKey.value, old_, new_))) else c),
      foreignKeys :=
          seq(|schema.foreignKeys|, i
              requires 0 <= i < |schema.foreignKeys| => RetargetKey(schema.foreignKeys[i], old_, new_)))
  }

  function RetargetKey(f: ForeignKey, old_: string, new_: string): ForeignKey {
    if f.refTable == old_ then f.(refTable := new_) else f
  }

  /** `rename_foreign_key_ref_column`. */
  function RenameRefColumn(schema: Schema, table: string, old_: string, new_: string): (r: Schema)
    ensures |r.columns| == |schema.columns|
    ensures forall i :: 0 <= i < |r.columns| ==>
            r.columns[i] == schema.columns[i].(foreignKey := r.columns[i].foreignKey)
  {
    schema.(
      columns := seq(|schema.columns|, i requires 0 <= i < |schema.columns| =>
        var c := schema.columns[i];
        if c.foreignKey.Some? then c.(foreignKey := Some(RenameParent(c.foreignKey.value, table, old_, new_))) else c),
      foreignKeys :=
          seq(|schema.foreignKeys|, i
              requires 0 <= i < |schema.foreignKeys| => RenameParent(schema.foreignKeys[i], table, old_, new_)))
  }

  // ----- Dropping ----------------------------------------------------------

  function RemoveAt<T>(s: seq<T>, i: nat): (r: seq<T>)
    requires i < |s|
    ensures |r| == |s| - 1
    ensures forall j :: 0 <= j < |r| ==> r[j] == s[if j < i then j else j + 1]
  {
    s[..i] + s[i + 1..]
  }

  predicate StartsWord(c: char) { 'a' <= c <= 'z' || 'A' <= c <= 'Z' || c == '_' }

  /** The leading letters, digits and underscores. */
  function WordPrefix(s: string): (n: nat)
    ensures n <= |s|
  {
    if s != "" && (StartsWord(s[0]) || '0' <= s[0] <= '9') then 1 + WordPrefix(s[1..]) else 0
  }

  /** `sql_expr_mentions_identifier`: one of the words of the text is the name, whatever the case. */
  predicate Mentions(text: string, name: string)
    decreases |text|
  {
    if text == "" then false
    else if !StartsWord(text[0]) then Mentions(text[1..], name)
    else SameName(text[..WordPrefix(text)], name) || Mentions(text[WordPrefix(text)..], name)
  }

  /** The guards of `Schema::drop_column`. */
  predicate DropAllowed(schema: Schema, name: string, index: nat)
    requires index < |schema.columns|
  {
    && |schema.columns| != 1
    && !schema.columns[index].primaryKey
    && (forall c | c in schema.columns && c.name != name && c.generated.Some? :: !Mentions(c.generated.value, name))
    && (forall c | c in AllChecks(schema) :: !References(c, name))
    && (forall u | u in schema.uniqueConstraints :: name !in u)
    && (forall f | f in AllForeignKeys(schema) :: name !in f.columns)
    && (schema.name != "" ==> forall f | f in schema.foreignKeys ::
        !(f.refTable == schema.name && HasReferencedColumn(f, name)))
    && (forall f | f in ColumnForeignKeys(schema.columns) ::
        !(f.refTable == schema.name && HasReferencedColumn(f, name)))
  }

  /** `Schema::drop_column`: the shortened schema and the index of the removed column. */
  function DropColumn(schema: Schema, name: string): (r: Result<(Schema, nat)>)
    ensures r.Ok? ==> r.value.1 < |schema.columns| && schema.columns[r.value.1].name == name
    ensures r.Ok? ==> !schema.columns[r.value.1].primaryKey
    ensures r.Ok? ==> r.value.0 == schema.(columns := RemoveAt(schema.columns, r.value.1))
  {
    var position := Position(Names(schema), name);
    if position.None? then Err(UnknownColumn)
    else
      var index := position.value;
      if !DropAllowed(schema, name, index) then Err(DropRefused)
      else
        var updated := schema.(columns := RemoveAt(schema.columns, index));
        if !ValidMetadata(updated) then Err(BadMetadata) else Ok((updated, index))
  }
}
