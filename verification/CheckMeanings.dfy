/** What CHECK expressions say about a row, and which rows a table accepts. */
module CheckMeanings {
  import opened Common
  import opened Decimal
  import opened Values
  import opened CheckExprs
  import opened Schemas
  import opened SchemaChanges
  import opened Comparisons
  import Glob
  import Regexp

  // ----- Tests ---------------------------------------------------------------

  /** Comparing with a literal: unknown when either is NULL, the relation between values of one class, and
      false between classes. */
  lemma CompareTestMeans(env: Env, v: Value, op: CompareOp, w: Value)
    ensures EvaluateTest(env, ColumnTest.Compare(op, w), v) ==
            Ok(if v.Null? || w.Null? then None else Some(Alike(v, w) && Related(v, op, w)))
  {
    CheckCompareMeans(v, op, w);
  }

  lemma IsNullMeans(env: Env, v: Value)
    ensures EvaluateTest(env, ColumnTest.IsNull(false), v) == Ok(Some(v.Null?))
    ensures EvaluateTest(env, ColumnTest.IsNull(true), v) == Ok(Some(!v.Null?))
  {
  }

  /** The test with its NOT. */
  function NotTest(t: ColumnTest): ColumnTest {
    match t
    case GlobMatch(p, negated) => GlobMatch(p, !negated)
    case RegexpMatch(p, negated) => RegexpMatch(p, !negated)
    case InList(values, negated) => ColumnTest.InList(values, !negated)
    case Between(low, high, negated) => ColumnTest.Between(low, high, !negated)
    case IsNull(negated) => ColumnTest.IsNull(!negated)
    case _ => t
  }

  /** NOT in front of a test turns true and false around and leaves unknown. */
  lemma NegatedMeans(env: Env, t: ColumnTest, v: Value)
    requires !t.Compare? && !t.Other?
    ensures EvaluateTest(env, t, v).Ok? == EvaluateTest(env, NotTest(t), v).Ok?
    ensures EvaluateTest(env, t, v).Ok? ==>
            EvaluateTest(env, NotTest(t), v).value == KleeneNot(EvaluateTest(env, t, v).value)
  {
  }

  /** BETWEEN with bounds of the value's class is `>= low AND <= high`; with a NULL it is unknown. */
  lemma BetweenMeans(env: Env, v: Value, low: Value, high: Value)
    ensures v.Null? || low.Null? || high.Null? ==>
            EvaluateTest(env, ColumnTest.Between(low, high, false), v) == Ok(None)
    ensures Alike(v, low) && Alike(v, high) ==>
            EvaluateTest(env, ColumnTest.Between(low, high, false), v) ==
            Ok(Some((v == low || Smaller(low, v)) && (v == high || Smaller(v, high))))
    ensures Alike(v, low) && Alike(v, high) ==>
            EvaluateTest(env, ColumnTest.Between(low, high, false), v) ==
            Ok(KleeneAnd(EvaluateCompare(v, Gte, low), EvaluateCompare(v, Lte, high)))
  {
    if Alike(v, low) && Alike(v, high) {
      TotalOrderMeans(v, low);
      TotalOrderMeans(v, high);
      OneOfThree(v, low);
      OneOfThree(v, high);
      CheckCompareMeans(v, Gte, low);
      CheckCompareMeans(v, Lte, high);
    }
  }

  /** Bounds of other classes: the value lies between them when its class does. */
  lemma BetweenClasses(env: Env, v: Value, low: Value, high: Value)
    requires !v.Null? && !low.Null? && !high.Null?
    ensures EvaluateTest(env, ColumnTest.Between(low, high, false), v) ==
            Ok(Some((v == low || EarlierClass(low, v) || (Alike(v, low) && Smaller(low, v))) &&
                    (v == high || EarlierClass(v, high) || (Alike(v, high) && Smaller(v, high)))))
  {
    TotalOrderMeans(v, low);
    TotalOrderMeans(v, high);
    if Alike(v, low) { OneOfThree(v, low); }
    if Alike(v, high) { OneOfThree(v, high); }
  }

  /** `v = w1 OR v = w2 OR ...`. */
  function AnyEqual(v: Value, values: seq<Value>): Option<bool> {
    if values == [] then Some(false) else KleeneOr(EvaluateCompare(v, Eq, values[0]), AnyEqual(v, values[1..]))
  }

  lemma {:induction false} AnyEqualIs(v: Value, values: seq<Value>)
    requires !v.Null?
    ensures AnyEqual(v, values) == if v in values then Some(true) else if Null in values then None else Some(false)
  {
    if values != [] {
      AnyEqualIs(v, values[1..]);
      CheckCompareMeans(v, Eq, values[0]);
      assert values == [values[0]] + values[1..];
    }
  }

  lemma {:induction false} NothingEqualsNull(values: seq<Value>)
    ensures AnyEqual(Null, values) == if values == [] then Some(false) else None
  {
    if values != [] { NothingEqualsNull(values[1..]); }
  }

  /** IN means the OR of its equalities, NULL members included; only of NULL in an empty list does the code
      say unknown where the OR of nothing is false. */
  lemma InListMeansIff(env: Env, v: Value, values: seq<Value>)
    ensures EvaluateTest(env, ColumnTest.InList(values, false), v) == Ok(AnyEqual(v, values)) <==>
            !(v.Null? && values == [])
  {
    if v.Null? { NothingEqualsNull(values); } else { AnyEqualIs(v, values); }
  }

  /** GLOB and REGEXP look at the value as text; of NULL they say nothing. */
  lemma PatternsMean(env: Env, v: Value, pattern: string)
    ensures EvaluateTest(env, GlobMatch(pattern, false), v) ==
            Ok(if v.Null? then None else Some(Glob.Matches(TextLike(env, v), pattern)))
    ensures !v.Null? && Regexp.Search(pattern, TextLike(env, v)).Ok? ==>
            EvaluateTest(env, RegexpMatch(pattern, false), v) ==
            Ok(Some(Regexp.Search(pattern, TextLike(env, v)).value))
    ensures TextLike(env, Boolean(true)) == "1" && TextLike(env, Boolean(false)) == "0"
    ensures (forall i: i64 :: TextLike(env, Integer(i)) == IntText(i)) && forall t :: TextLike(env, Text(t)) == t
  {
  }

  /** A whole expression: AND is the least of its parts, OR the greatest, NOT the opposite, and a leaf is
      its test of the cell in the named column. */
  lemma ExpressionMeans(env: Env, names: seq<string>, a: CheckExpr, b: CheckExpr, row: Row)
    requires Evaluate(env, names, a, row).Ok? && Evaluate(env, names, b, row).Ok?
    ensures var x, y := Evaluate(env, names, a, row).value, Evaluate(env, names, b, row).value;
            var both, either, not := Evaluate(env, names, CheckExpr.And(a, b), row),
                Evaluate(env, names, CheckExpr.Or(a, b), row), Evaluate(env, names, CheckExpr.Not(a), row);
            && both.Ok? && Degree(both.value) == (if Degree(x) <= Degree(y) then Degree(x) else Degree(y))
            && either.Ok? && Degree(either.value) == (if Degree(x) >= Degree(y) then Degree(x) else Degree(y))
            && not.Ok? && Degree(not.value) == 2 - Degree(x)
  {
    KleeneMeans(Evaluate(env, names, a, row).value, Evaluate(env, names, b, row).value);
  }

  lemma LeafMeans(env: Env, names: seq<string>, i: nat, test: ColumnTest, row: Row)
    requires i < |names| == |row| && forall j :: 0 <= j < |names| && j != i ==> names[j] != names[i]
    ensures Evaluate(env, names, Leaf(names[i], test), row) == EvaluateTest(env, test, row[i])
  {
    assert names[i] in names;
    assert Position(names, names[i]) == Some(i);
  }

  // ----- Rows ----------------------------------------------------------------

  /** A row keeps the CHECKs when none of them is false on it; unknown will do. */
  lemma ChecksKeptIff(env: Env, schema: Schema, row: Row)
    ensures CheckError(env, schema, row).None? <==> ChecksHold(env, schema, row)
  {
    NoCheckError(env, Names(schema), AllChecks(schema), row);
    hide Kept;
    if forall c :: c in AllChecks(schema) ==> KeptBy(env, Names(schema), c, row) {
      forall i, c | 0 <= i < |schema.columns| && c in schema.columns[i].checks ensures Kept(env, schema, c, row) {
        assert c in ColumnChecks(schema.columns) && c in AllChecks(schema);
        KeptIs(env, schema, c, row);
      }
      forall c | c in schema.checks ensures Kept(env, schema, c, row) {
        assert c in AllChecks(schema);
        KeptIs(env, schema, c, row);
      }
    }
    if ChecksHold(env, schema, row) {
      forall c | c in AllChecks(schema) ensures KeptBy(env, Names(schema), c, row) {
        KeptIs(env, schema, c, row);
        if c !in schema.checks {
          assert c in ColumnChecks(schema.columns);
          var i :| 0 <= i < |schema.columns| && c in schema.columns[i].checks;
        }
      }
    }
  }

  ghost predicate ChecksHold(env: Env, schema: Schema, row: Row) {
    (forall i, c :: 0 <= i < |schema.columns| && c in schema.columns[i].checks ==> Kept(env, schema, c, row)) &&
    forall c :: c in schema.checks ==> Kept(env, schema, c, row)
  }

  predicate Kept(env: Env, schema: Schema, c: CheckExpr, row: Row) { KeptBy(env, Names(schema), c, row) }

  predicate KeptBy(env: Env, names: seq<string>, c: CheckExpr, row: Row) {
    Evaluate(env, names, c, row).Ok? && Evaluate(env, names, c, row).value != Some(false)
  }

  lemma KeptIs(env: Env, schema: Schema, c: CheckExpr, row: Row)
    ensures Kept(env, schema, c, row) == KeptBy(env, Names(schema), c, row)
  {
  }

  /** The cell suits its column: NULL needs a column that is nullable and no primary key, or a descending
      integer primary key of a table that is not STRICT; any other value has to be of the column's type. */
  predicate CellSuits(schema: Schema, c: ColumnDef, v: Value) {
    if !v.Null? then TypeSuits(c.columnType, v)
    else if c.primaryKey then c.columnType == IntegerType && c.primaryKeySort == Some(Desc) && !schema.strict
    else c.nullable
  }

  predicate TypeSuits(t: ColumnType, v: Value) {
    match v
    case Null => false
    case Boolean(_) => t in {AnyType, BooleanType}
    case Integer(_) => t in {AnyType, IntegerType, NumericType}
    case Blob(_) => t in {AnyType, BlobType}
    case Text(_) => t in {AnyType, TextType}
  }

  lemma RowValidIff(schema: Schema, row: Row)
    ensures RowError(schema, row).None? <==>
            |row| == |schema.columns| && forall j :: 0 <= j < |row| ==> CellSuits(schema, schema.columns[j], row[j])
  {
    if |row| == |schema.columns| {
      forall j | 0 <= j < |row|
        ensures ColumnError(schema, schema.columns[j], row[j]).None? <==> CellSuits(schema, schema.columns[j], row[j])
      {
      }
    }
  }

  /** The row id is a column when it is the only key column, an INTEGER one that is not descending, and the
      table has row ids. */
  lemma RowIdColumnIff(schema: Schema, i: nat)
    ensures RowIdColumn(schema) == Some(i) <==>
            i < |schema.columns| && !schema.withoutRowid && schema.columns[i].primaryKey &&
            schema.columns[i].columnType == IntegerType && schema.columns[i].primaryKeySort != Some(Desc) &&
            forall j :: 0 <= j < |schema.columns| && schema.columns[j].primaryKey ==> j == i
  {
    var keys := KeyColumnsFrom(schema, 0);
    assert |keys| <= 1 || keys[0] < keys[1];
    if i < |schema.columns| && schema.columns[i].primaryKey &&
        forall j :: 0 <= j < |schema.columns| && schema.columns[j].primaryKey ==> j == i {
      assert IsKeyColumn(schema, i);
      assert i in keys;
      forall k | 0 <= k < |keys| ensures keys[k] == i {
        assert keys[k] in keys;
        assert IsKeyColumn(schema, keys[k]);
      }
      assert keys[0] == i;
    }
    if RowIdColumn(schema).Some? {
      var k := RowIdColumn(schema).value;
      assert IsKeyColumn(schema, k) && k in keys && |keys| == 1 && keys[0] == k;
      forall j | 0 <= j < |schema.columns| && schema.columns[j].primaryKey ensures j == k {
        assert IsKeyColumn(schema, j);
      }
    }
  }
}
