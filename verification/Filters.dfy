/** WHERE filters over a table's columns and what they mean on a row: under three-valued logic, and
    as the executor evaluates them. */
module Filters {
  import opened Common
  import opened Values
  import opened CheckExprs
  import opened Schemas
  import opened StoreSpec
  import Glob

  datatype Expr =
    | Compare(column: string, op: CompareOp, value: Value)
    | CompareColumns(left: string, op: CompareOp, right: string)
    | IsNull(column: string, negated: bool)
    | InList(column: string, values: seq<Value>, negated: bool)
    | Between(column: string, low: Value, high: Value, negated: bool)
    | GlobTest(column: string, pattern: string, negated: bool)
    | Not(inner: Expr)
    | And(conj0: Expr, conj1: Expr)
    | Or(disj0: Expr, disj1: Expr)

  /** Kleene: an unknown test is unknown. Executor: an unknown test is false, and NOT flips that. */
  datatype Mode = Kleene | Executor

  function Unknown(mode: Mode): Option<bool> { if mode.Kleene? then None else Some(false) }

  // ----- Comparison in the executor ----------------------------------------

  function StorageRank(v: Value): nat {
    match v
    case Null => 0
    case Boolean(_) => 1
    case Integer(_) => 1
    case Text(_) => 2
    case Blob(_) => 3
  }

  function AsInt(b: bool): int { if b then 1 else 0 }

  /** The executor's `compare`: booleans compare as numbers, unlike storage classes by rank. */
  function ExecCompare(left: Value, right: Value): Option<Ordering> {
    match (left, right)
    case (Null, Null) => Some(Equal)
    case (Null, _) => None
    case (_, Null) => None
    case (Boolean(a), Boolean(b)) => Some(CompareBools(a, b))
    case (Boolean(a), Integer(b)) => Some(CompareInts(AsInt(a), b))
    case (Integer(a), Boolean(b)) => Some(CompareInts(a, AsInt(b)))
    case (Integer(a), Integer(b)) => Some(CompareInts(a, b))
    case (Blob(a), Blob(b)) => Some(CompareSeqs(a, b))
    case (Text(a), Text(b)) => Some(CompareText(a, b))
    case _ => Some(CompareInts(StorageRank(left), StorageRank(right)))
  }

  function Lower(s: string): string { seq(|s|, i requires 0 <= i < |s| => LowerChar(s[i])) }

  function TrimEnd(s: string): string {
    if s != "" && s[|s| - 1] == ' ' then TrimEnd(s[..|s| - 1]) else s
  }

  predicate IsCollation(collation: Option<string>, name: string) {
    collation.Some? && SameName(collation.value, name)
  }

  predicate IsNoCase(collation: Option<string>) { IsCollation(collation, "NOCASE") }
  predicate IsRTrim(collation: Option<string>) { IsCollation(collation, "RTRIM") }
  predicate IsBinary(collation: Option<string>) { !IsNoCase(collation) && !IsRTrim(collation) }

  /** `compare_with_collation`. */
  function CollatedCompare(collation: Option<string>, left: Value, right: Value): Option<Ordering> {
    if IsNoCase(collation) && left.Text? && right.Text? then Some(CompareText(Lower(left.text), Lower(right.text)))
    else if IsRTrim(collation) && left.Text? && right.Text?
        then Some(CompareText(TrimEnd(left.text), TrimEnd(right.text)))
    else ExecCompare(left, right)
  }

  // ----- Evaluation --------------------------------------------------------

  function CollationOf(schema: Schema, column: string): Option<string> {
    match Position(Names(schema), column)
    case None => None
    case Some(i) => schema.columns[i].collation
  }

  function Cell(schema: Schema, row: Row, column: string): Value { ValueAt(Names(schema), column, row) }

  function CompareTest(mode: Mode, collation: Option<string>, left: Value, op: CompareOp, right: Value): Option<bool> {
    if left.Null? || right.Null? then Unknown(mode)
    else
      var o := CollatedCompare(collation, left, right);
      if o.Some? then Some(Satisfies(o.value, op)) else Some(false)
  }

  /** `in_membership`: None when the answer hangs on a NULL. */
  function Membership(left: Value, values: seq<Value>): Option<bool> {
    if values == [] then Some(false)
    else if left.Null? then None
    else if exists v | v in values :: !v.Null? && ExecCompare(left, v) == Some(Equal) then Some(true)
    else if Null in values then None
    else Some(false)
  }

  function Negate(mode: Mode, r: Option<bool>, negated: bool): Option<bool> {
    if r.None? then Unknown(mode) else Some(r.value != negated)
  }

  /** The executor's BETWEEN lets NULL compare equal to NULL; Kleene's is two comparisons. */
  function BetweenTest(mode: Mode, v: Value, low: Value, high: Value): Option<bool> {
    if mode.Kleene? then KleeneAnd(CompareTest(mode, None, v, Gte, low), CompareTest(mode, None, v, Lte, high))
    else
      var l, h := ExecCompare(v, low), ExecCompare(v, high);
      if l.None? || h.None? then None else Some(l.value != Less && h.value != Greater)
  }

  function Eval(mode: Mode, env: Env, schema: Schema, e: Expr, row: Row): Option<bool> {
    match e
    case Compare(c, op, value) => CompareTest(mode, CollationOf(schema, c), Cell(schema, row, c), op, value)
    case CompareColumns(l, op, r) =>
      var collation := if CollationOf(schema, l).Some? then CollationOf(schema, l) else CollationOf(schema, r);
      CompareTest(mode, collation, Cell(schema, row, l), op, Cell(schema, row, r))
    case IsNull(c, negated) => Some(Cell(schema, row, c).Null? != negated)
    case InList(c, values, negated) => Negate(mode, Membership(Cell(schema, row, c), values), negated)
    case Between(c, low, high, negated) => Negate(mode, BetweenTest(mode, Cell(schema, row, c), low, high), negated)
    case GlobTest(c, pattern, negated) =>
      var v := Cell(schema, row, c);
      if v.Null? then Unknown(mode) else Some(Glob.Matches(TextLike(env, v), pattern) != negated)
    case Not(inner) => KleeneNot(Eval(mode, env, schema, inner, row))
    case And(l, r) => KleeneAnd(Eval(mode, env, schema, l, row), Eval(mode, env, schema, r, row))
    case Or(l, r) => KleeneOr(Eval(mode, env, schema, l, row), Eval(mode, env, schema, r, row))
  }

  predicate Holds(mode: Mode, env: Env, schema: Schema, e: Expr, row: Row) {
    Eval(mode, env, schema, e, row) == Some(true)
  }

  /** BETWEEN with a NULL bound that the executor decides as three-valued logic does. It does not when a
      NULL value lies between two NULLs, which it takes for equal, and when NOT BETWEEN is settled by the
      one bound that is not NULL. */
  predicate BetweenFits(v: Value, low: Value, high: Value, negated: bool) {
    if v.Null? then negated || !low.Null? || !high.Null?
    else
      negated ==>
        !(low.Null? && !high.Null? && ExecCompare(v, high) == Some(Greater)) &&
        !(high.Null? && !low.Null? && ExecCompare(v, low) == Some(Less))
  }

  /** A filter without NOT whose BETWEENs all fit on the row. */
  predicate Decided(schema: Schema, e: Expr, row: Row) {
    match e
    case Not(_) => false
    case And(l, r) => Decided(schema, l, row) && Decided(schema, r, row)
    case Or(l, r) => Decided(schema, l, row) && Decided(schema, r, row)
    case Between(c, low, high, negated) => BetweenFits(Cell(schema, row, c), low, high, negated)
    case _ => true
  }

  /** The executor's BETWEEN is true exactly when three-valued logic's is, if and only if it fits. */
  lemma BetweenAgreesIff(v: Value, low: Value, high: Value, negated: bool)
    ensures var a := Negate(Executor, BetweenTest(Executor, v, low, high), negated);
            var b := Negate(Kleene, BetweenTest(Kleene, v, low, high), negated);
            a.Some? && ((a == Some(true) <==> b == Some(true)) <==> BetweenFits(v, low, high, negated))
  {
  }

  /** Both ways it can fail: 7 is not between NULL and 5, but the executor drops the row; and it keeps a
      NULL as lying between two NULLs. */
  lemma BetweenNullBounds()
    ensures Negate(Kleene, BetweenTest(Kleene, Integer(7), Null, Integer(5)), true) == Some(true)
    ensures Negate(Executor, BetweenTest(Executor, Integer(7), Null, Integer(5)), true) == Some(false)
    ensures Negate(Kleene, BetweenTest(Kleene, Null, Null, Null), false) == None
    ensures Negate(Executor, BetweenTest(Executor, Null, Null, Null), false) == Some(true)
  {
  }

  lemma CompareAgrees(collation: Option<string>, left: Value, op: CompareOp, right: Value)
    ensures var a, b := CompareTest(Executor, collation, left, op, right),
            CompareTest(Kleene, collation, left, op, right);
            a.Some? && (a == Some(true) <==> b == Some(true))
  {
  }

  lemma LeafAgrees(env: Env, schema: Schema, e: Expr, row: Row)
    requires Decided(schema, e, row) && !e.And? && !e.Or?
    ensures Eval(Executor, env, schema, e, row).Some?
    ensures Holds(Executor, env, schema, e, row) <==> Holds(Kleene, env, schema, e, row)
  {
    match e
    case Between(c, low, high, negated) => BetweenAgreesIff(Cell(schema, row, c), low, high, negated);
    case Compare(c, op, value) => CompareAgrees(CollationOf(schema, c), Cell(schema, row, c), op, value);
    case CompareColumns(l, op, r) =>
      var collation := if CollationOf(schema, l).Some? then CollationOf(schema, l) else CollationOf(schema, r);
      CompareAgrees(collation, Cell(schema, row, l), op, Cell(schema, row, r));
    case InList(_, _, _) =>
    case GlobTest(_, _, _) =>
    case IsNull(_, _) =>
  }

  lemma ConnectivesAgree(a: Option<bool>, b: Option<bool>, c: Option<bool>, d: Option<bool>)
    requires a.Some? && b.Some? && (a == Some(true) <==> c == Some(true)) && (b == Some(true) <==> d == Some(true))
    ensures KleeneAnd(a, b).Some? && (KleeneAnd(a, b) == Some(true) <==> KleeneAnd(c, d) == Some(true))
    ensures KleeneOr(a, b).Some? && (KleeneOr(a, b) == Some(true) <==> KleeneOr(c, d) == Some(true))
  {
    match (a, b)
    case (Some(x), Some(y)) => if x { if y {} else {} } else if y {} else {}
  }

  /** Without NOT, and when every BETWEEN fits, the executor keeps exactly the rows on which the filter is
      true in three-valued logic. */
  lemma {:induction false} ExecutorIsKleene(env: Env, schema: Schema, e: Expr, row: Row)
    requires Decided(schema, e, row)
    ensures Eval(Executor, env, schema, e, row).Some?
    ensures Holds(Executor, env, schema, e, row) <==> Holds(Kleene, env, schema, e, row)
  {
    hide CompareTest, BetweenTest, Membership, Negate, Cell, CollationOf;
    match e
    case And(l, r) =>
      ExecutorIsKleene(env, schema, l, row);
      ExecutorIsKleene(env, schema, r, row);
      ConnectivesAgree(Eval(Executor, env, schema, l, row), Eval(Executor, env, schema, r, row),
          Eval(Kleene, env, schema, l, row), Eval(Kleene, env, schema, r, row));
    case Or(l, r) =>
      ExecutorIsKleene(env, schema, l, row);
      ExecutorIsKleene(env, schema, r, row);
      ConnectivesAgree(Eval(Executor, env, schema, l, row), Eval(Executor, env, schema, r, row),
          Eval(Kleene, env, schema, l, row), Eval(Kleene, env, schema, r, row));
    case _ => LeafAgrees(env, schema, e, row);
  }

  /** With NOT it keeps more: NOT (x = NULL) is unknown, yet the executor's answer is yes. */
  lemma NotOfUnknownHolds(env: Env, schema: Schema, column: string, row: Row)
    ensures var e := Expr.Not(Expr.Compare(column, Eq, Null));
            Holds(Executor, env, schema, e, row) && Eval(Kleene, env, schema, e, row).None?
  {
  }

  /** Exactly: NOT of such a filter is kept as in three-valued logic if and only if the filter is not
      unknown on the row. */
  lemma NotAgreesIff(env: Env, schema: Schema, e: Expr, row: Row)
    requires Decided(schema, e, row)
    ensures (Holds(Executor, env, schema, Expr.Not(e), row) <==> Holds(Kleene, env, schema, Expr.Not(e), row))
            <==> Eval(Kleene, env, schema, e, row).Some?
  {
    ExecutorIsKleene(env, schema, e, row);
  }

  // ----- When the store and the executor agree -----------------------------

  /** Pairs the store puts in order: two NULLs, or two values of one class other than blobs. */
  predicate StoreOrders(v: Value, literal: Value) {
    (v.Null? && literal.Null?) || (v.Boolean? && literal.Boolean?) || (v.Integer? && literal.Integer?) ||
        (v.Text? && literal.Text?)
  }

  /** A comparison that an exact, bytewise index scan does not lose: when it is true, an equality does
      not pair a boolean with an integer, a range comparison is between values the store orders, and
      trailing blanks ignored by RTRIM make no difference. */
  predicate CompareFits(collation: Option<string>, v: Value, op: CompareOp, literal: Value) {
    CompareTest(Kleene, collation, v, op, literal) == Some(true) ==>
      && (op == Eq ==> (v.Boolean? <==> literal.Boolean?))
      && (op != Eq ==> StoreOrders(v, literal))
      && (IsRTrim(collation) && v.Text? && literal.Text? ==> Satisfies(CompareText(v.text, literal.text), op))
  }

  /** Equality in the executor is equality of values, except between a boolean and an integer. */
  lemma EqualMeansSame(v: Value, literal: Value)
    requires ExecCompare(v, literal) == Some(Equal)
    ensures v == literal <==> (v.Boolean? <==> literal.Boolean?)
  {
    match (v, literal)
    case (Text(a), Text(b)) => CompareTextAntisymmetric(a, b);
    case (Blob(a), Blob(b)) => CompareSeqsAntisymmetric(a, b);
    case _ =>
  }

  lemma EqualTexts(collation: Option<string>, v: Value, literal: Value)
    requires !IsNoCase(collation) && v.Text? && literal.Text?
    ensures v == literal ==> CompareTest(Kleene, collation, v, Eq, literal) == Some(true)
    ensures Satisfies(CompareText(v.text, literal.text), Eq) <==> v == literal
  {
    CompareTextAntisymmetric(v.text, literal.text);
    CompareTextAntisymmetric(TrimEnd(v.text), TrimEnd(literal.text));
  }

  /** The store finds what the executor's comparison keeps exactly when the comparison fits. */
  lemma CompareFitsIff(mode: Mode, collation: Option<string>, v: Value, op: CompareOp, literal: Value)
    requires !IsNoCase(collation) && op != Ne
    ensures CompareFits(collation, v, op, literal) <==>
            (CompareTest(mode, collation, v, op, literal) == Some(true) ==> StoreMatches(v, op, literal))
  {
    CompareAgrees(collation, v, op, literal);
    if v.Text? && literal.Text? {
      EqualTexts(collation, v, literal);
    } else if CompareTest(Kleene, collation, v, op, literal) == Some(true) {
      assert CollatedCompare(collation, v, literal) == ExecCompare(v, literal);
      if op == Eq { EqualMeansSame(v, literal); }
    }
  }

  /** Two comparisons that do not fit: the executor keeps the row, the store's own comparison does not. */
  lemma LooseComparisons()
    ensures CompareTest(Kleene, Some("RTRIM"), Text("a "), Eq, Text("a")) == Some(true) &&
            !StoreMatches(Text("a "), Eq, Text("a"))
    ensures CompareTest(Kleene, None, Boolean(true), Eq, Integer(1)) == Some(true) &&
            !StoreMatches(Boolean(true), Eq, Integer(1))
  {
    assert "a "[..1] == "a";
    assert TrimEnd("a ") == TrimEnd("a") == "a";
    CompareTextAntisymmetric("a", "a");
    CompareTextAntisymmetric("a ", "a");
  }

  /** Equal values are equal under every collation. */
  lemma EqualUnderCollation(collation: Option<string>, v: Value, literal: Value)
    requires ExecCompare(v, literal) == Some(Equal)
    ensures CollatedCompare(collation, v, literal) == Some(Equal)
  {
    if v.Text? && literal.Text? {
      CompareTextAntisymmetric(v.text, literal.text);
      CompareTextAntisymmetric(Lower(v.text), Lower(literal.text));
      CompareTextAntisymmetric(TrimEnd(v.text), TrimEnd(literal.text));
    }
  }
}
