/** The recursive-descent parser as far as CHECK expressions over columns and literals need it, and the
    conversion of what it reads into a CHECK expression. Where the grammar goes on into subqueries,
    function calls, CASE, CAST and row values, this model stops with an error. */
module CheckParsing {
  import opened Common
  import opened Values
  import opened CheckExprs
  import opened Lexing

  // ----- Syntax trees ------------------------------------------------------

  datatype BinaryOp =
    | MultiplyOp | DivideOp | ModuloOp | AddOp | SubtractOp
    | BitAndOp | BitOrOp | ShiftLeftOp | ShiftRightOp
    | ConcatOp | JsonExtractOp | JsonTextOp

  datatype Literal = Plain(value: Value) | Wide(n: nat) | Real(digits: string)

  datatype Scalar =
    | Constant(literal: Literal)
    | Column(name: string)
    | UnaryPlus(inner: Scalar)
    | UnaryMinus(inner: Scalar)
    | BitNot(inner: Scalar)
    | NotOf(inner: Scalar)
    | Binary(left: Scalar, op: BinaryOp, right: Scalar)
    | Collated(inner: Scalar, collation: string)
    | IsTest(left: Scalar, right: Scalar, negated: bool)
    | IsBoolTest(inner: Scalar, value: bool, negated: bool)
    | InTest(inner: Scalar, values: seq<Scalar>, negated: bool)
    | LikeTest(inner: Scalar, pattern: Scalar, escape: Option<Scalar>, negated: bool)
    | GlobTest(inner: Scalar, pattern: Scalar, negated: bool)
    | RegexpCall(pattern: Scalar, inner: Scalar)
    | BetweenTest(inner: Scalar, low: Scalar, high: Scalar, negated: bool)
    | CompareTest(left: Scalar, cmp: CompareOp, right: Scalar)

  datatype Query =
    | Compares(column: string, op: CompareOp, value: Value)
    | ComparesScalar(left: Scalar, op: CompareOp, right: Scalar)
    | IsNulls(column: string, negated: bool)
    | IsNullScalar(scalar: Scalar, negated: bool)
    | Ins(column: string, values: seq<Value>, negated: bool)
    | InsScalar(scalar: Scalar, list: seq<Scalar>, negated: bool)
    | Globs(column: string, pattern: Scalar, negated: bool)
    | GlobsScalar(scalar: Scalar, pattern: Scalar, negated: bool)
    | Likes(scalar: Scalar, pattern: Scalar, escape: Option<Scalar>, negated: bool)
    | Betweens(column: string, low: Value, high: Value, negated: bool)
    | BetweensScalar(scalar: Scalar, from: Scalar, to: Scalar, negated: bool)
    | IsBool(scalar: Scalar, truth: bool, negated: bool, explicit: bool)
    | Is(left: Scalar, right: Scalar, negated: bool)
    | AndQuery(first: Query, second: Query)
    | OrQuery(first: Query, second: Query)
    | NotQuery(inner: Query)

  type Tokens = seq<Token>

  function Peek(ts: Tokens, i: nat): Token { if i < |ts| then ts[i] else EndOfInput }

  predicate SaysAnd(t: Token) { t.Keyword? && t.word.AndWord? }
  predicate SaysOr(t: Token) { t.Keyword? && t.word.OrWord? }
  predicate SaysNot(t: Token) { t.Keyword? && t.word.NotWord? }
  predicate SaysIs(t: Token) { t.Keyword? && t.word.IsWord? }
  predicate SaysIn(t: Token) { t.Keyword? && t.word.InWord? }
  predicate SaysLike(t: Token) { t.Keyword? && t.word.LikeWord? }
  predicate SaysGlob(t: Token) { t.Keyword? && t.word.GlobWord? }
  predicate SaysRegexp(t: Token) { t.Keyword? && t.word.RegexpWord? }
  predicate SaysMatch(t: Token) { t.Keyword? && t.word.MatchWord? }
  predicate SaysEscape(t: Token) { t.Keyword? && t.word.EscapeWord? }
  predicate SaysBetween(t: Token) { t.Keyword? && t.word.BetweenWord? }
  predicate SaysCollate(t: Token) { t.Keyword? && t.word.CollateWord? }
  predicate SaysDistinct(t: Token) { t.Keyword? && t.word.DistinctWord? }
  predicate SaysFrom(t: Token) { t.Keyword? && t.word.FromWord? }
  predicate SaysTrue(t: Token) { t.Keyword? && t.word.TrueWord? }
  predicate SaysFalse(t: Token) { t.Keyword? && t.word.FalseWord? }
  predicate SaysNull(t: Token) { t.Keyword? && t.word.NullWord? }
  predicate SaysIsNull(t: Token) { t.Keyword? && t.word.IsNullWord? }
  predicate SaysNotNull(t: Token) { t.Keyword? && t.word.NotNullWord? }
  predicate SaysExists(t: Token) { t.Keyword? && t.word.ExistsWord? }
  predicate SaysCase(t: Token) { t.Keyword? && t.word.CaseWord? }
  predicate SaysSelect(t: Token) { t.Keyword? && t.word.SelectWord? }
  predicate SaysValues(t: Token) { t.Keyword? && t.word.ValuesWord? }
  predicate SaysReplace(t: Token) { t.Keyword? && t.word.ReplaceWord? }

  datatype Parsed<T> = Fail | Got(tree: T, next: nat)

  // ----- Scalars: operands -------------------------------------------------

  predicate IsNameToken(t: Token) { t.Identifier? || (t.Keyword? && t.word.SoftWord?) }

  /** `parse_simple_identifier`. */
  function NameOf(t: Token): Option<string> {
    match t
    case Identifier(name) => Some(name)
    case Keyword(SoftWord(name)) => Some(name)
    case Keyword(ReplaceWord) => Some("replace")
    case _ => None
  }

  /** The segments after the first of a dotted name. */
  function DottedRest(ts: Tokens, name: string, i: nat): (r: Parsed<string>)
    requires i <= |ts|
    ensures r.Got? ==> i <= r.next <= |ts|
    decreases |ts| - i
  {
    if !Peek(ts, i).Dot? then Got(name, i)
    else if NameOf(Peek(ts, i + 1)).None? then Fail
    else DottedRest(ts, name + "." + NameOf(Peek(ts, i + 1)).value, i + 2)
  }

  /** Identifiers that start a special form instead of naming a column, in any letter case. The forms are
      a conversion and calls of date functions, neither of which a CHECK of the modelled kinds contains. */
  predicate SpecialName(name: string) {
    Upper(name) in {"CAST", "CURRENT_DATE", "CURRENT_TIME", "CURRENT_TIMESTAMP"}
  }

  /** `parse_literal` on an unsigned literal. */
  function LiteralOf(t: Token): Option<Literal> {
    match t
    case IntegerToken(i) => Some(Plain(Integer(i)))
    case WideToken(n) => Some(Wide(n))
    case RealToken(digits) => Some(Real(digits))
    case BlobToken(bytes) => Some(Plain(Blob(bytes)))
    case StringToken(text) => Some(Plain(Text(text)))
    case Keyword(TrueWord) => Some(Plain(Boolean(true)))
    case Keyword(FalseWord) => Some(Plain(Boolean(false)))
    case Keyword(NullWord) => Some(Plain(Null))
    case _ => None
  }

  predicate SubqueryAt(ts: Tokens, i: nat) { Peek(ts, i).LParen? && SaysSelect(Peek(ts, i + 1)) }

  predicate StartsScalar(t: Token) {
    IsNameToken(t) || LiteralOf(t).Some? || t.LParen? || t.Plus? || t.Minus?
    || SaysCase(t) || SaysNot(t) || SaysReplace(t) || SaysLike(t) || SaysGlob(t)
  }

  /** `parse_primary_scalar_expr`. */
  function ParseOperand(ts: Tokens, i: nat): (r: Parsed<Scalar>)
    requires i <= |ts|
    ensures r.Got? ==> i < r.next <= |ts|
    decreases |ts| - i, 0
  {
    var t := Peek(ts, i);
    if SubqueryAt(ts, i) then Fail
    else if t.LParen? then
      (match ParseScalar(ts, i + 1)
       case Fail => Fail
       case Got(e, k) => if Peek(ts, k).RParen? then Got(e, k + 1) else Fail)
    else if t.Identifier? && SpecialName(t.name) then Fail
    else if IsNameToken(t) || SaysReplace(t) then
      (match DottedRest(ts, NameOf(t).value, i + 1)
       case Fail => Fail
       case Got(name, k) => if Peek(ts, k).LParen? then Fail else Got(Column(name), k))
    else if LiteralOf(t).Some? then Got(Constant(LiteralOf(t).value), i + 1)
    else Fail
  }

  /** The literal 2^63, which the lexer can only hold as a float, is what negation turns into the least
      64-bit integer; floats round every integer up to 2^63 + 1024 to it. */
  predicate RoundsToTwo63(n: nat) { 0x8000_0000_0000_0000 <= n <= 0x8000_0000_0000_0400 }

  function Negated(e: Scalar): Option<Scalar> {
    if e.Constant? && e.literal.Plain? && e.literal.value.Integer? && e.literal.value.i == MIN_I64 then None
    else if e.Constant? && e.literal.Wide? && RoundsToTwo63(e.literal.n) then Some(Constant(Plain(Integer(MIN_I64))))
    else Some(UnaryMinus(e))
  }

  /** `parse_unary_scalar_expr`. */
  function ParseUnary(ts: Tokens, i: nat): (r: Parsed<Scalar>)
    requires i <= |ts|
    ensures r.Got? ==> i < r.next <= |ts|
    decreases |ts| - i, 1
  {
    var t := Peek(ts, i);
    if t.Plus? || t.Minus? || t.Tilde? || SaysNot(t) then
      if !StartsScalar(Peek(ts, i + 1)) then Fail
      else match ParseUnary(ts, i + 1)
        case Fail => Fail
        case Got(e, k) =>
          if t.Plus? then Got(UnaryPlus(e), k)
          else if t.Tilde? then Got(BitNot(e), k)
          else if !t.Minus? then Got(NotOf(e), k)
          else if Negated(e).None? then Fail else Got(Negated(e).value, k)
    else ParseOperand(ts, i)
  }

  /** The binary operators of each precedence level, from multiplication to concatenation. */
  function OpAt(level: nat, t: Token): Option<BinaryOp> {
    match level
    case 1 => (match t case Star => Some(MultiplyOp) case Slash => Some(DivideOp) case Percent =>
        Some(ModuloOp) case _ => None)
    case 2 => (match t case Plus => Some(AddOp) case Minus => Some(SubtractOp) case _ => None)
    case 3 =>
      (match t
       case Ampersand => Some(BitAndOp)
       case Pipe => Some(BitOrOp)
       case ShiftLeft => Some(ShiftLeftOp)
       case ShiftRight => Some(ShiftRightOp)
       case _ => None)
    case _ => (match t case PipePipe => Some(ConcatOp) case Arrow => Some(JsonExtractOp) case ArrowText =>
        Some(JsonTextOp) case _ => None)
  }

  /** `parse_multiplicative_expr`, `parse_additive_expr`, `parse_bitwise_expr` and `parse_concat_expr`
      as levels 1 to 4 of one form. */
  function ParseBinary(ts: Tokens, i: nat, level: nat): (r: Parsed<Scalar>)
    requires i <= |ts| && level <= 4
    ensures r.Got? ==> i < r.next <= |ts|
    decreases |ts| - i, 2 + 2 * level
  {
    if level == 0 then ParseUnary(ts, i)
    else match ParseBinary(ts, i, level - 1)
      case Fail => Fail
      case Got(e, k) => BinaryRest(ts, e, k, level)
  }

  function BinaryRest(ts: Tokens, e: Scalar, i: nat, level: nat): (r: Parsed<Scalar>)
    requires i <= |ts| && 1 <= level <= 4
    ensures r.Got? ==> i <= r.next <= |ts|
    decreases |ts| - i, 1 + 2 * level
  {
    var op := OpAt(level, Peek(ts, i));
    if op.None? then Got(e, i)
    else match ParseBinary(ts, i + 1, level - 1)
      case Fail => Fail
      case Got(right, k) => BinaryRest(ts, Binary(e, op.value, right), k, level)
  }

  // ----- Scalars: suffixes -------------------------------------------------

  function CollateRest(ts: Tokens, e: Scalar, i: nat): (r: Parsed<Scalar>)
    requires i <= |ts|
    ensures r.Got? ==> i <= r.next <= |ts|
    decreases |ts| - i
  {
    if !SaysCollate(Peek(ts, i)) then Got(e, i)
    else if NameOf(Peek(ts, i + 1)).None? then Fail
    else CollateRest(ts, Collated(e, NameOf(Peek(ts, i + 1)).value), i + 2)
  }

  /** `parse_collate_expr`. */
  function ParseCollate(ts: Tokens, i: nat): (r: Parsed<Scalar>)
    requires i <= |ts|
    ensures r.Got? ==> i < r.next <= |ts|
    decreases |ts| - i, 11
  {
    match ParseBinary(ts, i, 4)
    case Fail => Fail
    case Got(e, k) => CollateRest(ts, e, k)
  }

  const NULL_SCALAR := Constant(Plain(Null))

  predicate IsNullConstant(e: Scalar) { e.Constant? && e.literal.Plain? && e.literal.value.Null? }

  /** `parse_scalar_is_suffix`. */
  function IsSuffix(ts: Tokens, e: Scalar, i: nat): (r: Parsed<Scalar>)
    requires i <= |ts|
    ensures r.Got? ==> i <= r.next <= |ts|
    decreases |ts| - i, 12
  {
    var t := Peek(ts, i);
    if SaysIsNull(t) then Got(IsTest(e, NULL_SCALAR, false), i + 1)
    else if SaysNotNull(t) then Got(IsTest(e, NULL_SCALAR, true), i + 1)
    else if SaysNot(t) && SaysNull(Peek(ts, i + 1)) then Got(IsTest(e, NULL_SCALAR, true), i + 2)
    else if !SaysIs(t) then Got(e, i)
    else
      var negated := SaysNot(Peek(ts, i + 1));
      var j := if negated then i + 2 else i + 1;
      var u := Peek(ts, j);
      if SaysDistinct(u) then
        if !SaysFrom(Peek(ts, j + 1)) then Fail
        else (match ParseCollate(ts, j + 2)
          case Fail => Fail
          case Got(right, k) => Got(IsTest(e, right, !negated), k))
      else if SaysTrue(u) then Got(IsBoolTest(e, true, negated), j + 1)
      else if SaysFalse(u) then Got(IsBoolTest(e, false, negated), j + 1)
      else if SaysNull(u) then Got(IsTest(e, NULL_SCALAR, negated), j + 1)
      else (match ParseCollate(ts, j)
        case Fail => Fail
        case Got(right, k) => Got(IsTest(e, right, negated), k))
  }

  /** The values of an IN list after its opening bracket, the closing one included. */
  function ValueList(ts: Tokens, i: nat, values: seq<Scalar>): (r: Parsed<seq<Scalar>>)
    requires i <= |ts|
    ensures r.Got? ==> i < r.next <= |ts|
    decreases |ts| - i, 15
  {
    match ParseScalar(ts, i)
    case Fail => Fail
    case Got(e, k) =>
      if Peek(ts, k).Comma? then ValueList(ts, k + 1, values + [e])
      else if Peek(ts, k).RParen? then Got(values + [e], k + 1)
      else Fail
  }

  /** `parse_scalar_in_value_list`. */
  function InList(ts: Tokens, i: nat): (r: Parsed<seq<Scalar>>)
    requires i <= |ts|
    ensures r.Got? ==> i < r.next <= |ts|
    decreases |ts| - i, 16
  {
    if !Peek(ts, i).LParen? || SaysSelect(Peek(ts, i + 1)) || SaysValues(Peek(ts, i + 1)) then Fail
    else if Peek(ts, i + 1).RParen? then Got([], i + 2)
    else ValueList(ts, i + 1, [])
  }

  /** `parse_scalar_in_suffix`. */
  function InSuffix(ts: Tokens, e: Scalar, i: nat): (r: Parsed<Scalar>)
    requires i <= |ts|
    ensures r.Got? ==> i <= r.next <= |ts|
    decreases |ts| - i, 12
  {
    var negated := SaysNot(Peek(ts, i)) && SaysIn(Peek(ts, i + 1));
    if !negated && !SaysIn(Peek(ts, i)) then Got(e, i)
    else match InList(ts, if negated then i + 2 else i + 1)
      case Fail => Fail
      case Got(values, k) => Got(InTest(e, values, negated), k)
  }

  predicate IsPatternWord(t: Token) {
    SaysLike(t) || SaysGlob(t) || SaysRegexp(t) || SaysMatch(t) || SaysBetween(t)
  }

  /** `parse_scalar_pattern_suffix`. */
  function PatternSuffix(ts: Tokens, e: Scalar, i: nat): (r: Parsed<Scalar>)
    requires i <= |ts|
    ensures r.Got? ==> i <= r.next <= |ts|
    decreases |ts| - i, 12
  {
    var negated := SaysNot(Peek(ts, i)) && IsPatternWord(Peek(ts, i + 1));
    var j := if negated then i + 1 else i;
    var t := Peek(ts, j);
    if !IsPatternWord(t) then Got(e, i)
    else if SaysBetween(t) then BetweenBounds(ts, e, j + 1, negated)
    else if SaysMatch(t) then Fail
    else match ParseScalar(ts, j + 1)
      case Fail => Fail
      case Got(pattern, k) =>
        if SaysGlob(t) then Got(GlobTest(e, pattern, negated), k)
        else if SaysRegexp(t) then
          var call := RegexpCall(pattern, e);
          Got(if negated then NotOf(call) else call, k)
        else if !SaysEscape(Peek(ts, k)) then Got(LikeTest(e, pattern, None, negated), k)
        else match ParseScalar(ts, k + 1)
          case Fail => Fail
          case Got(escape, m) => Got(LikeTest(e, pattern, Some(escape), negated), m)
  }

  /** The bounds of BETWEEN: two concatenations with AND between them. */
  function BetweenBounds(ts: Tokens, e: Scalar, i: nat, negated: bool): (r: Parsed<Scalar>)
    requires i <= |ts|
    ensures r.Got? ==> i <= r.next <= |ts|
    decreases |ts| - i, 11
  {
    match ParseBinary(ts, i, 4)
    case Fail => Fail
    case Got(low, k) =>
      if !SaysAnd(Peek(ts, k)) then Fail
      else match ParseBinary(ts, k + 1, 4)
        case Fail => Fail
        case Got(high, m) => Got(BetweenTest(e, low, high, negated), m)
  }

  function CompareOpOf(t: Token): Option<CompareOp> {
    match t
    case EqSign => Some(Eq)
    case NeSign => Some(Ne)
    case GtSign => Some(Gt)
    case GteSign => Some(Gte)
    case LtSign => Some(Lt)
    case LteSign => Some(Lte)
    case _ => None
  }

  /** `parse_scalar_compare_suffix`. */
  function CompareSuffix(ts: Tokens, e: Scalar, i: nat): (r: Parsed<Scalar>)
    requires i <= |ts|
    ensures r.Got? ==> i <= r.next <= |ts|
    decreases |ts| - i, 12
  {
    var op := CompareOpOf(Peek(ts, i));
    if op.None? then Got(e, i)
    else if SubqueryAt(ts, i + 1) then Fail
    else match ParseCollate(ts, i + 1)
      case Fail => Fail
      case Got(right, k) => Got(CompareTest(e, op.value, right), k)
  }

  /** `parse_scalar_expr`: a collated expression and at most one suffix of each kind, in order. */
  function ParseScalar(ts: Tokens, i: nat): (r: Parsed<Scalar>)
    requires i <= |ts|
    ensures r.Got? ==> i < r.next <= |ts|
    decreases |ts| - i, 14
  {
    match ParseCollate(ts, i)
    case Fail => Fail
    case Got(e, k) => Suffixes(ts, e, k)
  }

  function Suffixes(ts: Tokens, e: Scalar, i: nat): (r: Parsed<Scalar>)
    requires i <= |ts|
    ensures r.Got? ==> i <= r.next <= |ts|
    decreases |ts| - i, 13
  {
    match IsSuffix(ts, e, i)
    case Fail => Fail
    case Got(e1, j) =>
      match InSuffix(ts, e1, j)
      case Fail => Fail
      case Got(e2, k) =>
        match PatternSuffix(ts, e2, k)
        case Fail => Fail
        case Got(e3, m) => CompareSuffix(ts, e3, m)
  }

  // ----- Conditions --------------------------------------------------------

  /** `scalar_expr_literal_value`; concatenations and reals are not part of this model. */
  function ScalarValue(e: Scalar): Option<Value> {
    match e
    case Constant(Plain(v)) => Some(v)
    case UnaryMinus(Constant(Plain(Integer(i)))) => if i == MIN_I64 then None else Some(Integer(-i))
    case UnaryMinus(Constant(Wide(n))) => if RoundsToTwo63(n) then Some(Integer(MIN_I64)) else None
    case _ => None
  }

  function ScalarValues(es: seq<Scalar>): Option<seq<Value>> {
    if es == [] then Some([])
    else if ScalarValue(es[0]).None? || ScalarValues(es[1..]).None? then None
    else Some([ScalarValue(es[0]).value] + ScalarValues(es[1..]).value)
  }

  /** What follows a condition that is only a scalar. */
  predicate EndsCondition(t: Token) {
    t.RParen? || t.Semicolon? || t.EndOfInput? || SaysAnd(t) || SaysOr(t)
    || (t.Keyword? && t.word.OtherWord? && t.word.text in {"GROUP", "HAVING", "ON", "ORDER", "LIMIT", "UNION"})
    || (t.Keyword? && t.word.SoftWord? && t.word.name == "offset")
  }

  /** How `parse_comparison_expr` reads the scalar as a condition. */
  function ConditionOf(e: Scalar): Option<Query> {
    match e
    case IsBoolTest(inner, value, negated) => Some(IsBool(inner, value, negated, true))
    case IsTest(left, right, negated) =>
      Some(if !IsNullConstant(right) then Is(left, right, negated)
           else if left.Column? then IsNulls(left.name, negated) else IsNullScalar(left, negated))
    case InTest(inner, values, negated) =>
      Some(if inner.Column? && ScalarValues(values).Some? then Ins(inner.name, ScalarValues(values).value, negated)
           else InsScalar(inner, values, negated))
    case LikeTest(inner, pattern, escape, negated) => Some(Likes(inner, pattern, escape, negated))
    case GlobTest(inner, pattern, negated) =>
      Some(if inner.Column? then Globs(inner.name, pattern, negated) else GlobsScalar(inner, pattern, negated))
    case BetweenTest(inner, low, high, negated) =>
      Some(if inner.Column? && ScalarValue(low).Some? && ScalarValue(high).Some?
           then Betweens(inner.name, ScalarValue(low).value, ScalarValue(high).value, negated)
           else BetweensScalar(inner, low, high, negated))
    case CompareTest(left, op, right) =>
      Some(if left.Column? && ScalarValue(right).Some? then Compares(left.name, op, ScalarValue(right).value)
           else ComparesScalar(left, op, right))
    case _ => None
  }

  /** `parse_comparison_expr`. */
  function ParseCondition(ts: Tokens, i: nat): (r: Parsed<Query>)
    requires i <= |ts|
    ensures r.Got? ==> i < r.next <= |ts|
  {
    if !StartsScalar(Peek(ts, i)) then Fail
    else match ParseScalar(ts, i)
      case Fail => Fail
      case Got(e, k) =>
        if ConditionOf(e).Some? then Got(ConditionOf(e).value, k)
        else if EndsCondition(Peek(ts, k)) then Got(IsBool(e, true, false, false), k)
        else Fail
  }

  /** Tokens after a bracketed group that make it a scalar after all. */
  predicate ContinuesScalar(t: Token) {
    CompareOpOf(t).Some?
    || SaysIs(t) || SaysIsNull(t) || SaysNotNull(t) || SaysLike(t) || SaysGlob(t)
    || SaysBetween(t) || SaysIn(t) || SaysNot(t)
  }

  /** `parse_primary_expr`: a bracketed condition, unless it turns out to be a scalar. */
  function ParsePrimary(ts: Tokens, i: nat): (r: Parsed<Query>)
    requires i <= |ts|
    ensures r.Got? ==> i < r.next <= |ts|
    decreases |ts| - i, 0
  {
    if SaysExists(Peek(ts, i)) then Fail
    else if Peek(ts, i).LParen? then
      match ParseOr(ts, i + 1)
      case Fail => ParseCondition(ts, i)
      case Got(e, k) =>
        if Peek(ts, k).RParen? && !ContinuesScalar(Peek(ts, k + 1)) then Got(e, k + 1) else ParseCondition(ts, i)
    else ParseCondition(ts, i)
  }

  /** `parse_not_expr`. */
  function ParseNot(ts: Tokens, i: nat): (r: Parsed<Query>)
    requires i <= |ts|
    ensures r.Got? ==> i < r.next <= |ts|
    decreases |ts| - i, 1
  {
    if !SaysNot(Peek(ts, i)) then ParsePrimary(ts, i)
    else if SaysExists(Peek(ts, i + 1)) then Fail
    else match ParseNot(ts, i + 1)
      case Got(e, k) => Got(NotQuery(e), k)
      case Fail =>
        match ParseScalar(ts, i + 1)
        case Fail => Fail
        case Got(e, k) => Got(NotQuery(IsBool(e, true, false, false)), k)
  }

  /** `parse_and_expr`. */
  function ParseAnd(ts: Tokens, i: nat): (r: Parsed<Query>)
    requires i <= |ts|
    ensures r.Got? ==> i < r.next <= |ts|
    decreases |ts| - i, 3
  {
    match ParseNot(ts, i)
    case Fail => Fail
    case Got(e, k) => AndRest(ts, e, k)
  }

  function AndRest(ts: Tokens, e: Query, i: nat): (r: Parsed<Query>)
    requires i <= |ts|
    ensures r.Got? ==> i <= r.next <= |ts|
    decreases |ts| - i, 2
  {
    if !SaysAnd(Peek(ts, i)) then Got(e, i)
    else match ParseNot(ts, i + 1)
      case Fail => Fail
      case Got(right, k) => AndRest(ts, AndQuery(e, right), k)
  }

  /** `parse_or_expr`. */
  function ParseOr(ts: Tokens, i: nat): (r: Parsed<Query>)
    requires i <= |ts|
    ensures r.Got? ==> i < r.next <= |ts|
    decreases |ts| - i, 5
  {
    match ParseAnd(ts, i)
    case Fail => Fail
    case Got(e, k) => OrRest(ts, e, k)
  }

  function OrRest(ts: Tokens, e: Query, i: nat): (r: Parsed<Query>)
    requires i <= |ts|
    ensures r.Got? ==> i <= r.next <= |ts|
    decreases |ts| - i, 4
  {
    if !SaysOr(Peek(ts, i)) then Got(e, i)
    else match ParseAnd(ts, i + 1)
      case Fail => Fail
      case Got(right, k) => OrRest(ts, OrQuery(e, right), k)
  }

  // ----- The parser as the source runs it ----------------------------------

  /** The token list and the position the parse methods advance and rewind. */
  class Parser {
    const tokens: Tokens
    var index: nat

    constructor (ts: Tokens)
      ensures tokens == ts && index == 0
    {
      tokens := ts;
      index := 0;
    }

    predicate Valid()
      reads this
    {
      index <= |tokens|
    }

    /** The functional result that a returned tree and the position stand for. */
    ghost function Outcome<T>(tree: Option<T>): Parsed<T>
      reads this
    {
      if tree.Some? then Got(tree.value, index) else Fail
    }

    /** Takes over the result of a part that needs no loop and no way back. */
    method Follow<T>(p: Parsed<T>) returns (r: Option<T>)
      requires Valid() && (p.Got? ==> p.next <= |tokens|)
      modifies this
      ensures Valid() && Outcome(r) == p
    {
      match p
      case Fail => r := None;
      case Got(tree, next) =>
        index := next;
        r := Some(tree);
    }

    method ParseBinaryExpr(level: nat) returns (r: Option<Scalar>)
      requires Valid() && level <= 4
      modifies this
      ensures Valid() && Outcome(r) == ParseBinary(tokens, old(index), level)
      decreases |tokens| - index, level
    {
      if level == 0 {
        r := Follow(ParseUnary(tokens, index));
        return;
      }
      var start := index;
      var e := ParseBinaryExpr(level - 1);
      if e.None? {
        return None;
      }
      var expr := e.value;
      var op := OpAt(level, Peek(tokens, index));
      while op.Some?
        invariant Valid() && start < index && op == OpAt(level, Peek(tokens, index))
        invariant BinaryRest(tokens, expr, index, level) == ParseBinary(tokens, start, level)
        decreases |tokens| - index
      {
        index := index + 1;
        var right := ParseBinaryExpr(level - 1);
        if right.None? {
          return None;
        }
        expr := Binary(expr, op.value, right.value);
        op := OpAt(level, Peek(tokens, index));
      }
      r := Some(expr);
    }

    method ParseValues() returns (r: Option<seq<Scalar>>)
      requires Valid()
      modifies this
      ensures Valid() && Outcome(r) == ValueList(tokens, old(index), [])
    {
      var values: seq<Scalar> := [];
      var start := index;
      while true
        invariant Valid() && start <= index
        invariant ValueList(tokens, index, values) == ValueList(tokens, start, [])
        decreases |tokens| - index
      {
        var e := Follow(ParseScalar(tokens, index));
        if e.None? {
          return None;
        }
        values := values + [e.value];
        if Peek(tokens, index).Comma? {
          index := index + 1;
          continue;
        }
        if !Peek(tokens, index).RParen? {
          return None;
        }
        index := index + 1;
        return Some(values);
      }
    }

    /** A bracketed condition; when it fails, or a scalar goes on after it, the parser goes back. */
    method ParsePrimaryExpr() returns (r: Option<Query>)
      requires Valid()
      modifies this
      ensures Valid() && Outcome(r) == ParsePrimary(tokens, old(index))
      decreases |tokens| - index, 0
    {
      if SaysExists(Peek(tokens, index)) {
        return None;
      }
      if Peek(tokens, index).LParen? {
        var groupStart := index;
        index := index + 1;
        var e := ParseOrExpr();
        if e.Some? && Peek(tokens, index).RParen? && !ContinuesScalar(Peek(tokens, index + 1)) {
          index := index + 1;
          return e;
        }
        index := groupStart;
      }
      r := Follow(ParseCondition(tokens, index));
    }

    method ParseNotExpr() returns (r: Option<Query>)
      requires Valid()
      modifies this
      ensures Valid() && Outcome(r) == ParseNot(tokens, old(index))
      decreases |tokens| - index, 1
    {
      if !SaysNot(Peek(tokens, index)) {
        r := ParsePrimaryExpr();
        return;
      }
      index := index + 1;
      if SaysExists(Peek(tokens, index)) {
        return None;
      }
      var scalarStart := index;
      var inner := ParseNotExpr();
      if inner.Some? {
        return Some(NotQuery(inner.value));
      }
      index := scalarStart;
      var e := Follow(ParseScalar(tokens, index));
      r := if e.Some? then Some(NotQuery(IsBool(e.value, true, false, false))) else None;
    }

    method ParseAndExpr() returns (r: Option<Query>)
      requires Valid()
      modifies this
      ensures Valid() && Outcome(r) == ParseAnd(tokens, old(index))
      decreases |tokens| - index, 2
    {
      var start := index;
      var e := ParseNotExpr();
      if e.None? {
        return None;
      }
      var expr := e.value;
      while SaysAnd(Peek(tokens, index))
        invariant Valid() && start < index
        invariant AndRest(tokens, expr, index) == ParseAnd(tokens, start)
        decreases |tokens| - index
      {
        index := index + 1;
        var right := ParseNotExpr();
        if right.None? {
          return None;
        }
        expr := AndQuery(expr, right.value);
      }
      r := Some(expr);
    }

    method ParseOrExpr() returns (r: Option<Query>)
      requires Valid()
      modifies this
      ensures Valid() && Outcome(r) == ParseOr(tokens, old(index))
      decreases |tokens| - index, 3
    {
      var start := index;
      var e := ParseAndExpr();
      if e.None? {
        return None;
      }
      var expr := e.value;
      while SaysOr(Peek(tokens, index))
        invariant Valid() && start < index
        invariant OrRest(tokens, expr, index) == ParseOr(tokens, start)
        decreases |tokens| - index
      {
        index := index + 1;
        var right := ParseAndExpr();
        if right.None? {
          return None;
        }
        expr := OrQuery(expr, right.value);
      }
      r := Some(expr);
    }
  }

  // ----- CHECK expressions -------------------------------------------------

  function PatternText(env: Env, e: Scalar): Option<string> {
    if ScalarValue(e).None? then None else Some(TextLike(env, ScalarValue(e).value))
  }

  function ReversedOp(op: CompareOp): CompareOp {
    match op
    case Eq => Eq
    case Ne => Ne
    case Gt => Lt
    case Gte => Lte
    case Lt => Gt
    case Lte => Gte
  }

  function RegexpCheck(env: Env, pattern: Scalar, column: Scalar, negated: bool): Result<CheckExpr> {
    if PatternText(env, pattern).None? || !column.Column? then Err(Syntax)
    else Ok(Leaf(column.name, RegexpMatch(PatternText(env, pattern).value, negated)))
  }

  /** `check_expr_from_expr`, for the kinds of CHECK expression this model has. */
  function CheckOf(env: Env, q: Query): Result<CheckExpr> {
    match q
    case Compares(c, op, v) => Ok(Leaf(c, ColumnTest.Compare(op, v)))
    case ComparesScalar(Constant(Plain(v)), op, Column(c)) => Ok(Leaf(c, ColumnTest.Compare(ReversedOp(op), v)))
    case IsNulls(c, negated) => Ok(Leaf(c, ColumnTest.IsNull(negated)))
    case Ins(c, values, negated) => Ok(Leaf(c, ColumnTest.InList(values, negated)))
    case Globs(c, pattern, negated) =>
      if PatternText(env, pattern).None? then Err(Syntax)
          else Ok(Leaf(c, GlobMatch(PatternText(env, pattern).value, negated)))
    case Betweens(c, low, high, negated) => Ok(Leaf(c, ColumnTest.Between(low, high, negated)))
    case IsBool(RegexpCall(pattern, column), true, negated, false) =>
      (match RegexpCheck(env, pattern, column, false)
       case Err(e) => Err(e)
       case Ok(check) => Ok(if negated then CheckExpr.Not(check) else check))
    case IsBool(NotOf(RegexpCall(pattern, column)), true, false, false) => RegexpCheck(env, pattern, column, true)
    case AndQuery(a, b) =>
      (match (CheckOf(env, a), CheckOf(env, b))
       case (Err(e), _) => Err(e)
       case (_, Err(e)) => Err(e)
       case (Ok(l), Ok(r)) => Ok(CheckExpr.And(l, r)))
    case OrQuery(a, b) =>
      (match (CheckOf(env, a), CheckOf(env, b))
       case (Err(e), _) => Err(e)
       case (_, Err(e)) => Err(e)
       case (Ok(l), Ok(r)) => Ok(CheckExpr.Or(l, r)))
    case NotQuery(a) =>
      (match CheckOf(env, a) case Err(e) => Err(e) case Ok(inner) => Ok(CheckExpr.Not(inner)))
    case _ => Err(Syntax)
  }

  /** `parse_check_constraint_expression`. */
  function ParseCheck(env: Env, input: string): Result<CheckExpr> {
    match Lex(input)
    case Err(e) => Err(e)
    case Ok(ts) =>
      if Peek(ts, 0).EndOfInput? then Err(Syntax)
      else match ParseOr(ts, 0)
        case Fail => Err(Syntax)
        case Got(q, k) => if Peek(ts, k).EndOfInput? then CheckOf(env, q) else Err(Syntax)
  }
}
