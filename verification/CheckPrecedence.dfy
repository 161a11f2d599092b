/** How the parser groups conditions and arithmetic that are written with as few brackets as they need. */
module CheckPrecedence {
  import opened Common
  import opened Values
  import opened CheckExprs
  import opened Lexing
  import opened CheckPrinter
  import opened CheckParsing
  import opened CheckRoundTrip

  // ----- Conditions --------------------------------------------------------

  /** How loosely a condition binds: tests and NOT tightest, then AND, then OR. */
  function Looseness(e: PlainCheck): nat {
    match e
    case Leaf(_, _) => 0
    case Not(_) => 0
    case And(_, _) => 1
    case Or(_, _) => 2
  }

  /** A condition in a place that holds conditions up to a looseness; looser ones go into brackets. AND
      and OR lean to the left. */
  function Spelled(word: string -> Token, e: PlainCheck, level: nat): seq<Token>
    decreases e, 1
  {
    if Looseness(e) <= level then Bare(word, e) else BracketTokens(Bare(word, e))
  }

  function Bare(word: string -> Token, e: PlainCheck): seq<Token>
    decreases e, 0
  {
    match e
    case Leaf(name, test) => [word(name)] + TestTokens(test)
    case Not(inner) => [Keyword(NotWord)] + Spelled(word, inner, 0)
    case And(l, r) => Spelled(word, l, 1) + ([Keyword(AndWord)] + Spelled(word, r, 0))
    case Or(l, r) => Spelled(word, l, 2) + ([Keyword(OrWord)] + Spelled(word, r, 1))
  }

  /** What reading a condition at a looseness comes to when its tokens end at a position. */
  ghost predicate ReadsAs(ts: Tokens, i: nat, q: Query, k: nat, level: nat)
    requires i <= |ts| && k <= |ts|
  {
    if level == 0 then ParseNot(ts, i) == Got(q, k)
    else if level == 1 then ParseAnd(ts, i) == AndRest(ts, q, k)
    else ParseOr(ts, i) == OrRest(ts, q, k)
  }

  /** The next token does not belong to a tighter connective. */
  predicate Ends(t: Token, level: nat) { Follows(t) && (level >= 2 ==> !SaysAnd(t)) }

  lemma TighterReads(ts: Tokens, i: nat, q: Query, k: nat, from: nat, to: nat)
    requires i <= |ts| && k <= |ts| && from <= to <= 2 && ReadsAs(ts, i, q, k, from) && Ends(Peek(ts, k), to)
    ensures ReadsAs(ts, i, q, k, to)
  {
    if from == 0 && to > 0 { assert ReadsAs(ts, i, q, k, 1); }
    if from < to == 2 { assert AndRest(ts, q, k) == Got(q, k); }
  }

  lemma AndReads(ts: Tokens, i: nat, p: Query, k: nat, q: Query, m: nat)
    requires i <= |ts| && k < |ts| && m <= |ts| && ReadsAs(ts, i, p, k, 1) && SaysAnd(Peek(ts, k))
    requires ReadsAs(ts, k + 1, q, m, 0)
    ensures ReadsAs(ts, i, AndQuery(p, q), m, 1)
  {
  }

  lemma OrReads(ts: Tokens, i: nat, p: Query, k: nat, q: Query, m: nat)
    requires i <= |ts| && k < |ts| && m <= |ts| && ReadsAs(ts, i, p, k, 2) && SaysOr(Peek(ts, k))
    requires ReadsAs(ts, k + 1, q, m, 1) && !SaysAnd(Peek(ts, m))
    ensures ReadsAs(ts, i, OrQuery(p, q), m, 2)
  {
  }

  lemma NegationReads(ts: Tokens, i: nat, q: Query, k: nat)
    requires i < |ts| && k <= |ts| && SaysNot(Peek(ts, i)) && !SaysExists(Peek(ts, i + 1)) &&
             ReadsAs(ts, i + 1, q, k, 0)
    ensures ReadsAs(ts, i, NotQuery(q), k, 0)
  {
  }

  lemma BracketsRead(ts: Tokens, i: nat, q: Query, k: nat)
    requires i < |ts| && k < |ts| && Peek(ts, i).LParen? && ReadsAs(ts, i + 1, q, k, 2) && Peek(ts, k).RParen? &&
             Stops(Peek(ts, k + 1))
    ensures ReadsAs(ts, i, q, k + 1, 0)
  {
    assert OrRest(ts, q, k) == Got(q, k);
    GroupParses(ts, i, q, k);
  }

  /** The first token of a condition is a column, a bracket or NOT. */
  lemma {:induction false} FirstToken(word: string -> Token, e: PlainCheck, level: nat)
    requires Named(ParserNaming(), word, e)
    ensures Spelled(word, e, level) != [] && !SaysExists(Spelled(word, e, level)[0])
    decreases e
  {
    match e
    case Leaf(name, _) => ColumnStarts(word(name), name);
    case Not(_) =>
    case And(l, _) => FirstToken(word, l, 1);
    case Or(l, _) => FirstToken(word, l, 2);
  }

  /** Tokens spelled with as few brackets as possible read as the condition they spell. */
  lemma {:induction false} SpelledReads(word: string -> Token, ts: Tokens, i: nat, e: PlainCheck, level: nat)
    requires level <= 2 && Named(ParserNaming(), word, e) && At(ts, i, Spelled(word, e, level))
    requires Ends(Peek(ts, i + |Spelled(word, e, level)|), level)
    ensures ReadsAs(ts, i, QueryOf(e), i + |Spelled(word, e, level)|, level)
    decreases e, 2
  {
    hide Bare, ReadsAs, Named, QueryOf;
    var us := Bare(word, e);
    if Looseness(e) <= level {
      BareReads(word, ts, i, e);
      TighterReads(ts, i, QueryOf(e), i + |us|, Looseness(e), level);
    } else {
      BracketsAt(ts, i, us);
      BareReads(word, ts, i + 1, e);
      TighterReads(ts, i + 1, QueryOf(e), i + 1 + |us|, Looseness(e), 2);
      BracketsRead(ts, i, QueryOf(e), i + 1 + |us|);
      TighterReads(ts, i, QueryOf(e), i + 2 + |us|, 0, level);
    }
  }

  lemma {:induction false} BareReads(word: string -> Token, ts: Tokens, i: nat, e: PlainCheck)
    requires Named(ParserNaming(), word, e) && At(ts, i, Bare(word, e))
    requires Ends(Peek(ts, i + |Bare(word, e)|), Looseness(e))
    ensures ReadsAs(ts, i, QueryOf(e), i + |Bare(word, e)|, Looseness(e))
    decreases e, 1
  {
    hide At, Spelled, TestTokens, LeafQuery, AndRest, OrRest, ParseNot, ParseAnd, ParseOr;
    match e
    case Leaf(name, test) => LeafParses(ts, i, word(name), name, test);
    case Not(inner) =>
      var us := Spelled(word, inner, 0);
      AtHead(ts, i, Keyword(NotWord), us);
      FirstToken(word, inner, 0);
      AtFirst(ts, i + 1, us);
      SpelledReads(word, ts, i + 1, inner, 0);
      NegationReads(ts, i, QueryOf(inner), i + 1 + |us|);
    case And(_, _) => AndCase(word, ts, i, e);
    case Or(_, _) => OrCase(word, ts, i, e);
  }

  lemma {:induction false} AndCase(word: string -> Token, ts: Tokens, i: nat, e: PlainCheck)
    requires e.And? && Named(ParserNaming(), word, e.left) && Named(ParserNaming(), word, e.right)
    requires At(ts, i, Bare(word, e)) && Ends(Peek(ts, i + |Bare(word, e)|), 1)
    ensures ReadsAs(ts, i, QueryOf(e), i + |Bare(word, e)|, 1)
    decreases e, 0
  {
    hide At, Spelled, Named, ReadsAs;
    var us, vs := Spelled(word, e.left, 1), Spelled(word, e.right, 0);
    ConnectedAs(ts, i, us, Keyword(AndWord), vs);
    SpelledReads(word, ts, i, e.left, 1);
    SpelledReads(word, ts, i + |us| + 1, e.right, 0);
    AndReads(ts, i, QueryOf(e.left), i + |us|, QueryOf(e.right), i + |us| + 1 + |vs|);
  }

  lemma {:induction false} OrCase(word: string -> Token, ts: Tokens, i: nat, e: PlainCheck)
    requires e.Or? && Named(ParserNaming(), word, e.left) && Named(ParserNaming(), word, e.right)
    requires At(ts, i, Bare(word, e)) && Ends(Peek(ts, i + |Bare(word, e)|), 2)
    ensures ReadsAs(ts, i, QueryOf(e), i + |Bare(word, e)|, 2)
    decreases e, 0
  {
    hide At, Spelled, Named, ReadsAs;
    var us, vs := Spelled(word, e.left, 2), Spelled(word, e.right, 1);
    ConnectedAs(ts, i, us, Keyword(OrWord), vs);
    SpelledReads(word, ts, i, e.left, 2);
    SpelledReads(word, ts, i + |us| + 1, e.right, 1);
    OrReads(ts, i, QueryOf(e.left), i + |us|, QueryOf(e.right), i + |us| + 1 + |vs|);
  }

  lemma ConnectedAs(ts: Tokens, i: nat, us: seq<Token>, t: Token, vs: seq<Token>)
    requires At(ts, i, us + ([t] + vs))
    ensures At(ts, i, us) && i + |us| < |ts| && Peek(ts, i + |us|) == t && At(ts, i + |us| + 1, vs)
    ensures i + |us| + 1 + |vs| <= |ts|
  {
    AtSplit(ts, i, us, [t] + vs);
    AtHead(ts, i + |us|, t, vs);
  }

  /** A condition written with as few brackets as AND binding tighter than OR, NOT tighter than both and
      leaning to the left allow reads back as itself. */
  lemma SparseParses(word: string -> Token, env: Env, ts: Tokens, e: PlainCheck)
    requires Named(ParserNaming(), word, e) && ts == Spelled(word, e, 2) + [EndOfInput]
    ensures var p := ParseOr(ts, 0); p.Got? && Peek(ts, p.next).EndOfInput? && CheckOf(env, p.tree) == Ok(e)
  {
    hide Spelled, Named, QueryOf, CheckOf;
    var us := Spelled(word, e, 2);
    assert At(ts, 0, us) && Peek(ts, |us|) == EndOfInput;
    SpelledReads(word, ts, 0, e, 2);
    assert OrRest(ts, QueryOf(e), |us|) == Got(QueryOf(e), |us|);
    QueryConverts(env, e);
  }

  // ----- Arithmetic --------------------------------------------------------

  /** How loosely an operator binds, from multiplication to concatenation, and its token. */
  function LevelOf(op: BinaryOp): (level: nat)
    ensures 1 <= level <= 4
  {
    match op
    case MultiplyOp => 1
    case DivideOp => 1
    case ModuloOp => 1
    case AddOp => 2
    case SubtractOp => 2
    case BitAndOp => 3
    case BitOrOp => 3
    case ShiftLeftOp => 3
    case ShiftRightOp => 3
    case ConcatOp => 4
    case JsonExtractOp => 4
    case JsonTextOp => 4
  }

  function SignOf(op: BinaryOp): Token {
    match op
    case MultiplyOp => Star
    case DivideOp => Slash
    case ModuloOp => Percent
    case AddOp => Plus
    case SubtractOp => Minus
    case BitAndOp => Ampersand
    case BitOrOp => Pipe
    case ShiftLeftOp => ShiftLeft
    case ShiftRightOp => ShiftRight
    case ConcatOp => PipePipe
    case JsonExtractOp => Arrow
    case JsonTextOp => ArrowText
  }

  /** Arithmetic over columns and unsigned literals. */
  ghost predicate Arithmetic(word: string -> Token, e: Scalar) {
    match e
    case Column(name) => ColumnToken(word(name), name)
    case Constant(Plain(v)) => v.Integer? ==> v.i >= 0
    case UnaryPlus(inner) => Arithmetic(word, inner)
    case UnaryMinus(inner) => Arithmetic(word, inner)
    case BitNot(inner) => Arithmetic(word, inner)
    case Binary(l, _, r) => Arithmetic(word, l) && Arithmetic(word, r)
    case _ => false
  }

  /** Operands bind tightest, then signs, then the operators by level. */
  function Binding(e: Scalar): nat {
    match e
    case Binary(_, op, _) => 1 + LevelOf(op)
    case UnaryPlus(_) => 1
    case UnaryMinus(_) => 1
    case BitNot(_) => 1
    case _ => 0
  }

  function Written(word: string -> Token, e: Scalar, level: nat): seq<Token>
    decreases e, 1
  {
    if Binding(e) <= level then Open(word, e) else BracketTokens(Open(word, e))
  }

  function Open(word: string -> Token, e: Scalar): seq<Token>
    decreases e, 0
  {
    match e
    case Column(name) => [word(name)]
    case Constant(Plain(v)) => LiteralTokens(v)
    case UnaryPlus(inner) => [Plus] + Written(word, inner, 0)
    case UnaryMinus(inner) => [Minus] + Written(word, inner, 0)
    case BitNot(inner) => [Tilde] + Written(word, inner, 0)
    case Binary(l, op, r) => Written(word, l, 1 + LevelOf(op)) + ([SignOf(op)] + Written(word, r, LevelOf(op)))
    case _ => []
  }

  /** What reading an expression at a binding level comes to when its tokens end at a position. */
  ghost predicate ScalarReadsAs(ts: Tokens, i: nat, e: Scalar, k: nat, level: nat)
    requires i <= |ts| && k <= |ts| && level <= 5
  {
    if level == 0 then ParseOperand(ts, i) == Got(e, k)
    else if level == 1 then ParseUnary(ts, i) == Got(e, k)
    else ParseBinary(ts, i, level - 1) == BinaryRest(ts, e, k, level - 1)
  }

  /** The next token does not go on with a name, nor with an operator that binds tighter. */
  ghost predicate Breaks(t: Token, level: nat) {
    !t.Dot? && !t.LParen? && forall op: BinaryOp :: 1 + LevelOf(op) < level ==> t != SignOf(op)
  }

  /** The parser's operator at a level is the one written with that token and binding at that level. */
  lemma OpAtSign(level: nat, t: Token, op: BinaryOp)
    requires 1 <= level <= 4
    ensures OpAt(level, t) == Some(op) <==> LevelOf(op) == level && SignOf(op) == t
  {
  }

  lemma NoTighterOp(t: Token, level: nat)
    requires Breaks(t, level + 1) && 1 <= level <= 4
    ensures forall l :: 1 <= l < level ==> OpAt(l, t).None?
  {
    forall l | 1 <= l < level ensures OpAt(l, t).None? {
      if OpAt(l, t).Some? { OpAtSign(l, t, OpAt(l, t).value); }
    }
  }

  lemma {:induction false} LooserReads(ts: Tokens, i: nat, e: Scalar, k: nat, from: nat, to: nat)
    requires i <= |ts| && k <= |ts| && 1 <= from <= to <= 5
    requires ScalarReadsAs(ts, i, e, k, from) && Breaks(Peek(ts, k), to)
    ensures ScalarReadsAs(ts, i, e, k, to)
    decreases 5 - from
  {
    if from < to {
      if from >= 2 {
        NoTighterOp(Peek(ts, k), to - 1);
        assert OpAt(from - 1, Peek(ts, k)).None?;
      }
      LooserReads(ts, i, e, k, from + 1, to);
    }
  }

  lemma OperandReads(ts: Tokens, i: nat, e: Scalar, k: nat)
    requires i < |ts| && k <= |ts| && ScalarReadsAs(ts, i, e, k, 0)
    requires var t := Peek(ts, i); !t.Plus? && !t.Minus? && !t.Tilde? && !SaysNot(t)
    ensures ScalarReadsAs(ts, i, e, k, 1)
  {
  }

  lemma BinaryReads(ts: Tokens, i: nat, l: Scalar, k: nat, op: BinaryOp, r: Scalar, m: nat)
    requires i <= |ts| && k < |ts| && m <= |ts| && ScalarReadsAs(ts, i, l, k, 1 + LevelOf(op))
    requires Peek(ts, k) == SignOf(op) && ScalarReadsAs(ts, k + 1, r, m, LevelOf(op)) &&
             Breaks(Peek(ts, m), 1 + LevelOf(op))
    ensures ScalarReadsAs(ts, i, Binary(l, op, r), m, 1 + LevelOf(op))
  {
    var level := LevelOf(op);
    OpAtSign(level, SignOf(op), op);
    NoTighterOp(Peek(ts, m), level);
    assert ParseBinary(ts, k + 1, level - 1) == Got(r, m);
  }

  /** A written operand starts with a column, a literal or a bracket. */
  lemma FirstOfOperand(word: string -> Token, e: Scalar)
    requires Arithmetic(word, e)
    ensures Written(word, e, 0) != []
    ensures var t := Written(word, e, 0)[0];
            StartsScalar(t) && !t.Plus? && !t.Minus? && !t.Tilde? && !SaysNot(t) && !SaysSelect(t)
  {
  }

  lemma {:induction false} FirstIsNoSelect(word: string -> Token, e: Scalar, level: nat)
    requires Arithmetic(word, e)
    ensures Written(word, e, level) != [] && !SaysSelect(Written(word, e, level)[0])
    decreases e
  {
    match e
    case Binary(l, op, _) => FirstIsNoSelect(word, l, 1 + LevelOf(op));
    case _ =>
  }

  lemma ColumnReads(ts: Tokens, i: nat, name: string)
    requires i < |ts| && ColumnToken(Peek(ts, i), name) && Breaks(Peek(ts, i + 1), 0)
    ensures ScalarReadsAs(ts, i, Column(name), i + 1, 0)
  {
    assert DottedRest(ts, name, i + 1) == Got(name, i + 1);
  }

  lemma ConstantReads(ts: Tokens, i: nat, v: Value)
    requires At(ts, i, LiteralTokens(v)) && (v.Integer? ==> v.i >= 0)
    ensures i < |ts| && |LiteralTokens(v)| == 1 && ScalarReadsAs(ts, i, Constant(Plain(v)), i + 1, 0)
  {
    AtFirst(ts, i, LiteralTokens(v));
    assert !IsNameToken(Peek(ts, i)) && LiteralOf(Peek(ts, i)) == Some(Plain(v));
  }

  lemma SignReads(ts: Tokens, i: nat, inner: Scalar, k: nat, e: Scalar)
    requires i < |ts| && k <= |ts| && StartsScalar(Peek(ts, i + 1)) && ScalarReadsAs(ts, i + 1, inner, k, 1)
    requires (e == UnaryPlus(inner) && Peek(ts, i) == Plus) || (e == BitNot(inner) && Peek(ts, i) == Tilde) ||
             (e == UnaryMinus(inner) && Peek(ts, i) == Minus && CheckParsing.Negated(inner) == Some(e))
    ensures ScalarReadsAs(ts, i, e, k, 1)
  {
  }

  /** An expression between brackets is an operand again. */
  lemma OperandInBrackets(ts: Tokens, i: nat, e: Scalar, k: nat)
    requires i < |ts| && k < |ts| && Peek(ts, i).LParen? && !SaysSelect(Peek(ts, i + 1))
    requires ScalarReadsAs(ts, i + 1, e, k, 5) && Peek(ts, k).RParen?
    ensures ScalarReadsAs(ts, i, e, k + 1, 0)
  {
    assert ParseBinary(ts, i + 1, 4) == Got(e, k);
    assert ParseCollate(ts, i + 1) == Got(e, k);
    NoSuffix(ts, e, k);
  }

  /** Arithmetic written with as few brackets as possible reads as what it spells. */
  lemma {:induction false} WrittenReads(word: string -> Token, ts: Tokens, i: nat, e: Scalar, level: nat)
    requires level <= 5 && Arithmetic(word, e) && At(ts, i, Written(word, e, level))
    requires Breaks(Peek(ts, i + |Written(word, e, level)|), level)
    ensures ScalarReadsAs(ts, i, e, i + |Written(word, e, level)|, level)
    decreases e, 2
  {
    hide Open, ScalarReadsAs, Arithmetic;
    var us := Open(word, e);
    if Binding(e) <= level {
      OpenReads(word, ts, i, e);
      Lifted(word, ts, i, e, Binding(e), level);
    } else {
      BracketsAt(ts, i, us);
      OpenReads(word, ts, i + 1, e);
      FirstIsNoSelect(word, e, 5);
      AtFirst(ts, i + 1, us);
      LooserReads(ts, i + 1, e, i + 1 + |us|, Binding(e), 5);
      OperandInBrackets(ts, i, e, i + 1 + |us|);
      if level > 0 {
        OperandReads(ts, i, e, i + 2 + |us|);
        LooserReads(ts, i, e, i + 2 + |us|, 1, level);
      }
    }
  }

  lemma Lifted(word: string -> Token, ts: Tokens, i: nat, e: Scalar, from: nat, to: nat)
    requires Arithmetic(word, e) && from == Binding(e) <= to <= 5 && At(ts, i, Open(word, e))
    requires ScalarReadsAs(ts, i, e, i + |Open(word, e)|, from) && Breaks(Peek(ts, i + |Open(word, e)|), to)
    ensures ScalarReadsAs(ts, i, e, i + |Open(word, e)|, to)
  {
    hide Open, ScalarReadsAs, Arithmetic;
    if from == 0 < to {
      FirstOfOperand(word, e);
      AtFirst(ts, i, Open(word, e));
      OperandReads(ts, i, e, i + |Open(word, e)|);
    }
    if to > 0 { LooserReads(ts, i, e, i + |Open(word, e)|, if from == 0 then 1 else from, to); }
  }

  lemma {:induction false} OpenReads(word: string -> Token, ts: Tokens, i: nat, e: Scalar)
    requires Arithmetic(word, e) && At(ts, i, Open(word, e)) && Breaks(Peek(ts, i + |Open(word, e)|), Binding(e))
    ensures ScalarReadsAs(ts, i, e, i + |Open(word, e)|, Binding(e))
    decreases e, 1
  {
    hide ScalarReadsAs, Written;
    match e
    case Column(name) => AtOnly(ts, i, word(name)); ColumnReads(ts, i, name);
    case Constant(Plain(v)) => ConstantReads(ts, i, v);
    case UnaryPlus(inner) => SignedReads(word, ts, i, e, Plus, inner);
    case UnaryMinus(inner) => SignedReads(word, ts, i, e, Minus, inner);
    case BitNot(inner) => SignedReads(word, ts, i, e, Tilde, inner);
    case Binary(_, _, _) => OperatorReads(word, ts, i, e);
  }

  /** No operator's token is that of one binding at another level. */
  lemma SignBreaks(op: BinaryOp)
    ensures Breaks(SignOf(op), 1 + LevelOf(op))
  {
    forall other: BinaryOp | SignOf(other) == SignOf(op) ensures other == op { OpAtSign(LevelOf(op), SignOf(op), op); }
  }

  lemma {:induction false} OperatorReads(word: string -> Token, ts: Tokens, i: nat, e: Scalar)
    requires e.Binary? && Arithmetic(word, e.left) && Arithmetic(word, e.right)
    requires At(ts, i, Open(word, e)) && Breaks(Peek(ts, i + |Open(word, e)|), 1 + LevelOf(e.op))
    ensures ScalarReadsAs(ts, i, e, i + |Open(word, e)|, 1 + LevelOf(e.op))
    decreases e, 0
  {
    hide ScalarReadsAs, Written, Arithmetic, At, LevelOf, SignOf;
    var level, sign := LevelOf(e.op), SignOf(e.op);
    var us, vs := Written(word, e.left, 1 + level), Written(word, e.right, level);
    ConnectedAs(ts, i, us, sign, vs);
    SignBreaks(e.op);
    WrittenReads(word, ts, i, e.left, 1 + level);
    WrittenReads(word, ts, i + |us| + 1, e.right, level);
    BinaryReads(ts, i, e.left, i + |us|, e.op, e.right, i + |us| + 1 + |vs|);
  }

  lemma {:induction false} SignedReads(word: string -> Token, ts: Tokens, i: nat, e: Scalar, t: Token, inner: Scalar)
    requires (e == UnaryPlus(inner) && t == Plus) || (e == UnaryMinus(inner) && t == Minus) ||
             (e == BitNot(inner) && t == Tilde)
    requires Arithmetic(word, inner) && At(ts, i, [t] + Written(word, inner, 0))
    requires Breaks(Peek(ts, i + 1 + |Written(word, inner, 0)|), 1)
    ensures ScalarReadsAs(ts, i, e, i + 1 + |Written(word, inner, 0)|, 1)
    decreases e, 0
  {
    hide ScalarReadsAs, Written;
    var us := Written(word, inner, 0);
    AtHead(ts, i, t, us);
    FirstOfOperand(word, inner);
    AtFirst(ts, i + 1, us);
    WrittenReads(word, ts, i + 1, inner, 0);
    OperandReads(ts, i + 1, inner, i + 1 + |us|);
    SignReads(ts, i, inner, i + 1 + |us|, e);
  }

  /** Arithmetic written with as few brackets as its operators' levels and leaning to the left allow
      reads back as itself. */
  lemma ArithmeticParses(word: string -> Token, ts: Tokens, i: nat, e: Scalar)
    requires Arithmetic(word, e) && At(ts, i, Written(word, e, 5)) && Stops(Peek(ts, i + |Written(word, e, 5)|))
    ensures i <= |ts| && ParseBinary(ts, i, 4) == Got(e, i + |Written(word, e, 5)|)
  {
    var k := i + |Written(word, e, 5)|;
    StopsEndsAll(Peek(ts, k));
    forall op: BinaryOp ensures Peek(ts, k) != SignOf(op) { OpAtSign(LevelOf(op), SignOf(op), op); }
    WrittenReads(word, ts, i, e, 5);
  }
}
