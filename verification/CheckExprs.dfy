/** CHECK expressions over a table's columns and their three-valued evaluation. */
module CheckExprs {
  import opened Common
  import opened Values
  import Glob
  import Regexp

  /** What a leaf of a CHECK expression asks of its column. */
  datatype ColumnTest =
    | Compare(op: CompareOp, value: Value)
    | IsNull(negated: bool)
    | GlobMatch(pattern: string, negated: bool)
    | RegexpMatch(pattern: string, negated: bool)
    | InList(values: seq<Value>, negated: bool)
    | Between(low: Value, high: Value, negated: bool)
    // Any other kind of test the source has; `kind` stands for its name and operands.
    | Other(kind: string)

  datatype CheckExpr =
    | Leaf(column: string, test: ColumnTest)
    | And(left: CheckExpr, right: CheckExpr)
    | Or(left: CheckExpr, right: CheckExpr)
    | Not(inner: CheckExpr)

  /** Expressions without tests of other kinds. */
  type PlainTest = t: ColumnTest | !t.Other? witness ColumnTest.IsNull(false)

  predicate Plain(e: CheckExpr) {
    match e
    case Leaf(_, test) => !test.Other?
    case And(l, r) => Plain(l) && Plain(r)
    case Or(l, r) => Plain(l) && Plain(r)
    case Not(inner) => Plain(inner)
  }

  type PlainCheck = e: CheckExpr | Plain(e) witness Leaf("", ColumnTest.IsNull(false))

  /** The first position of a name, as `iter().position` finds it. */
  function Position(names: seq<string>, name: string): (r: Option<nat>)
    ensures r.Some? <==> name in names
    ensures r.Some? ==> r.value < |names| && names[r.value] == name && forall j :: 0 <= j < r.value ==> names[j] != name
  {
    if names == [] then None
    else if names[0] == name then Some(0)
    else match Position(names[1..], name)
      case None => None
      case Some(i) => Some(i + 1)
  }

  /** `value_for_column`. */
  function Lookup(names: seq<string>, row: Row, column: string): Result<Value> {
    match Position(names, column)
    case None => Err(UnknownColumn)
    case Some(i) => if i < |row| then Ok(row[i]) else Err(MissingValue)
  }

  /** `evaluate_check_compare`: NULL is unknown, unlike classes compare false. */
  function EvaluateCompare(left: Value, op: CompareOp, right: Value): Option<bool> {
    match (left, right)
    case (Null, _) => None
    case (_, Null) => None
    case (Boolean(a), Boolean(b)) => Some(Satisfies(CompareBools(a, b), op))
    case (Integer(a), Integer(b)) => Some(Satisfies(CompareInts(a, b), op))
    case (Blob(a), Blob(b)) => Some(Satisfies(CompareSeqs(a, b), op))
    case (Text(a), Text(b)) => Some(Satisfies(CompareText(a, b), op))
    case _ => Some(false)
  }

  function ClassRank(v: Value): nat {
    match v
    case Null => 0
    case Boolean(_) => 1
    case Integer(_) => 2
    case Blob(_) => 4
    case Text(_) => 5
  }

  /** The total order `Ord for Value`, used by BETWEEN. */
  function TotalOrder(left: Value, right: Value): Ordering {
    match (left, right)
    case (Boolean(a), Boolean(b)) => CompareBools(a, b)
    case (Integer(a), Integer(b)) => CompareInts(a, b)
    case (Blob(a), Blob(b)) => CompareSeqs(a, b)
    case (Text(a), Text(b)) => CompareText(a, b)
    case _ => CompareInts(ClassRank(left), ClassRank(right))
  }

  function KleeneAnd(a: Option<bool>, b: Option<bool>): Option<bool> {
    if a == Some(false) || b == Some(false) then Some(false)
    else if a == Some(true) && b == Some(true) then Some(true)
    else None
  }

  function KleeneOr(a: Option<bool>, b: Option<bool>): Option<bool> {
    if a == Some(true) || b == Some(true) then Some(true)
    else if a == Some(false) && b == Some(false) then Some(false)
    else None
  }

  function KleeneNot(a: Option<bool>): Option<bool> {
    if a.None? then None else Some(!a.value)
  }

  /** What a leaf says about the value of its column. */
  function EvaluateTest(env: Env, test: ColumnTest, v: Value): Result<Option<bool>> {
    match test
    case Compare(op, value) => Ok(EvaluateCompare(v, op, value))
    case IsNull(negated) => Ok(Some(v.Null? != negated))
    case GlobMatch(pattern, negated) =>
      if v.Null? then Ok(None) else Ok(Some(Glob.Matches(TextLike(env, v), pattern) != negated))
    case RegexpMatch(pattern, negated) =>
      if v.Null? then Ok(None)
      else (match Regexp.Search(pattern, TextLike(env, v))
        case Err(error) => Err(error)
        case Ok(found) => Ok(Some(found != negated)))
    case InList(values, negated) =>
      if v.Null? then Ok(None)
      else if v in values then Ok(Some(!negated))
      else if Null in values then Ok(None)
      else Ok(Some(negated))
    case Between(low, high, negated) =>
      if v.Null? || low.Null? || high.Null? then Ok(None)
      else Ok(Some((TotalOrder(v, low) != Less && TotalOrder(v, high) != Greater) != negated))
    case Other(kind) => env.otherTest(kind, v)
  }

  /** `evaluate_check_expr` on a row of a table with these column names. */
  function Evaluate(env: Env, names: seq<string>, e: CheckExpr, row: Row): Result<Option<bool>> {
    match e
    case And(l, r) =>
      (match (Evaluate(env, names, l, row), Evaluate(env, names, r, row))
       case (Err(error), _) => Err(error)
       case (_, Err(error)) => Err(error)
       case (Ok(a), Ok(b)) => Ok(KleeneAnd(a, b)))
    case Or(l, r) =>
      (match (Evaluate(env, names, l, row), Evaluate(env, names, r, row))
       case (Err(error), _) => Err(error)
       case (_, Err(error)) => Err(error)
       case (Ok(a), Ok(b)) => Ok(KleeneOr(a, b)))
    case Not(inner) =>
      (match Evaluate(env, names, inner, row)
       case Err(error) => Err(error)
       case Ok(a) => Ok(KleeneNot(a)))
    case Leaf(column, test) =>
      (match Lookup(names, row, column)
       case Err(error) => Err(error)
       case Ok(v) => EvaluateTest(env, test, v))
  }

  /** `validate_check_expr_metadata`. */
  predicate ColumnsExist(names: seq<string>, e: CheckExpr) {
    match e
    case And(l, r) => ColumnsExist(names, l) && ColumnsExist(names, r)
    case Or(l, r) => ColumnsExist(names, l) && ColumnsExist(names, r)
    case Not(inner) => ColumnsExist(names, inner)
    case Leaf(column, _) => column in names
  }

  /** `check_references_column`. */
  predicate References(e: CheckExpr, name: string) {
    match e
    case And(l, r) => References(l, name) || References(r, name)
    case Or(l, r) => References(l, name) || References(r, name)
    case Not(inner) => References(inner, name)
    case Leaf(column, _) => column == name
  }

  /** `rename_check_expr_column`. */
  function Rename(e: CheckExpr, old_: string, new_: string): CheckExpr {
    match e
    case And(l, r) => And(Rename(l, old_, new_), Rename(r, old_, new_))
    case Or(l, r) => Or(Rename(l, old_, new_), Rename(r, old_, new_))
    case Not(inner) => Not(Rename(inner, old_, new_))
    case Leaf(column, test) => Leaf(if column == old_ then new_ else column, test)
  }
}
