/** What WHERE filters say about the cells of a row. */
module FilterMeanings {
  import opened Common
  import opened Values
  import opened CheckExprs
  import opened Schemas
  import opened Filters
  import opened Comparisons
  import Glob

  lemma CellIs(schema: Schema, row: Row, i: nat)
    requires i < |schema.columns| == |row| && DistinctNames(schema)
    ensures Cell(schema, row, schema.columns[i].name) == row[i]
    ensures CollationOf(schema, schema.columns[i].name) == schema.columns[i].collation
  {
    assert Names(schema)[i] in Names(schema);
    assert Position(Names(schema), Names(schema)[i]) == Some(i);
  }

  /** A comparison relates the cell on its left to the literal or the cell on its right, under the left
      column's collation or, when it has none, the right one's. */
  lemma ComparisonMeans(mode: Mode, env: Env, schema: Schema, row: Row, i: nat, j: nat, op: CompareOp, w: Value)
    requires i < |schema.columns| == |row| && j < |row| && DistinctNames(schema)
    ensures var left, right := schema.columns[i], schema.columns[j];
            var literal, columns := Eval(mode, env, schema, Expr.Compare(left.name, op, w), row),
                Eval(mode, env, schema, Expr.CompareColumns(left.name, op, right.name), row);
            && (left.collation.None? ==> literal == ExecTruth(mode, row[i], op, w))
            && (left.collation.None? && right.collation.None? ==> columns == ExecTruth(mode, row[i], op, row[j]))
            && literal == CompareTest(mode, left.collation, row[i], op, w)
            && columns == CompareTest(mode, if left.collation.Some? then left.collation else right.collation,
                              row[i], op, row[j])
  {
    CellIs(schema, row, i);
    CellIs(schema, row, j);
    ExecCompareMeans(mode, row[i], op, w);
    ExecCompareMeans(mode, row[i], op, row[j]);
  }

  /** IS NULL, and GLOB on the cell as text. */
  lemma TestsMean(mode: Mode, env: Env, schema: Schema, row: Row, i: nat, pattern: string)
    requires i < |schema.columns| == |row| && DistinctNames(schema)
    ensures var name := schema.columns[i].name;
            && Eval(mode, env, schema, Expr.IsNull(name, false), row) == Some(row[i].Null?)
            && Eval(mode, env, schema, Expr.IsNull(name, true), row) == Some(!row[i].Null?)
            && (row[i].Text? ==>
                 Eval(mode, env, schema, Expr.GlobTest(name, pattern, false), row) ==
                 Some(Glob.Matches(row[i].text, pattern)))
            && (row[i].Null? ==> Eval(mode, env, schema, Expr.GlobTest(name, pattern, false), row) == Unknown(mode))
  {
    CellIs(schema, row, i);
  }

  /** In three-valued logic BETWEEN is `>= low AND <= high`. */
  lemma BetweenIsTwo(env: Env, schema: Schema, row: Row, i: nat, low: Value, high: Value)
    requires i < |schema.columns| == |row| && DistinctNames(schema)
    ensures Eval(Kleene, env, schema, Expr.Between(schema.columns[i].name, low, high, false), row) ==
            KleeneAnd(ExecTruth(Kleene, row[i], Gte, low), ExecTruth(Kleene, row[i], Lte, high))
  {
    CellIs(schema, row, i);
    ExecCompareMeans(Kleene, row[i], Gte, low);
    ExecCompareMeans(Kleene, row[i], Lte, high);
  }

  /** IN is true when the cell equals a member, otherwise unknown when the cell or a member is NULL; of an
      empty list it is false. */
  lemma InMeans(env: Env, schema: Schema, row: Row, i: nat, values: seq<Value>)
    requires i < |schema.columns| == |row| && DistinctNames(schema)
    ensures Eval(Kleene, env, schema, Expr.InList(schema.columns[i].name, values, false), row) ==
            if exists w :: w in values && !row[i].Null? && !w.Null? && AsNumber(row[i]) == AsNumber(w) then Some(true)
            else if values != [] && (row[i].Null? || Null in values) then None else Some(false)
  {
    CellIs(schema, row, i);
    forall w | w in values && !row[i].Null? && !w.Null?
      ensures ExecCompare(row[i], w) == Some(Equal) <==> AsNumber(row[i]) == AsNumber(w)
    {
      ExecCompareMeans(Kleene, row[i], Eq, w);
    }
  }

  /** A negated test, which shares the test's reading but for the NOT. */
  function NotFilter(e: Expr): Expr {
    match e
    case IsNull(c, negated) => Expr.IsNull(c, !negated)
    case InList(c, values, negated) => Expr.InList(c, values, !negated)
    case Between(c, low, high, negated) => Expr.Between(c, low, high, !negated)
    case GlobTest(c, pattern, negated) => Expr.GlobTest(c, pattern, !negated)
    case _ => e
  }

  lemma NegatedFilterMeans(env: Env, schema: Schema, e: Expr, row: Row)
    requires e.IsNull? || e.InList? || e.Between? || e.GlobTest?
    ensures Eval(Kleene, env, schema, NotFilter(e), row) == KleeneNot(Eval(Kleene, env, schema, e, row))
  {
  }

  /** AND is the least of its parts, OR the greatest, NOT the opposite. */
  lemma ConnectivesMean(mode: Mode, env: Env, schema: Schema, a: Expr, b: Expr, row: Row)
    ensures var x, y := Degree(Eval(mode, env, schema, a, row)), Degree(Eval(mode, env, schema, b, row));
            && Degree(Eval(mode, env, schema, Expr.And(a, b), row)) == (if x <= y then x else y)
            && Degree(Eval(mode, env, schema, Expr.Or(a, b), row)) == (if x >= y then x else y)
            && Degree(Eval(mode, env, schema, Expr.Not(a), row)) == 2 - x
  {
    KleeneMeans(Eval(mode, env, schema, a, row), Eval(mode, env, schema, b, row));
  }
}
