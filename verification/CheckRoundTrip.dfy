/** Parsing a rendered CHECK expression gives the expression back. */
module CheckRoundTrip {
  import opened Common
  import opened Values
  import opened CheckExprs
  import opened Lexing
  import opened CheckPrinter
  import opened LexPrinted
  import opened CheckParsing

  // ----- Tokens in place ---------------------------------------------------

  ghost predicate At(ts: Tokens, i: nat, us: seq<Token>) { i + |us| <= |ts| && ts[i..i + |us|] == us }

  lemma AtSplit(ts: Tokens, i: nat, us: seq<Token>, vs: seq<Token>)
    requires At(ts, i, us + vs)
    ensures At(ts, i, us) && At(ts, i + |us|, vs)
  {
    assert ts[i..i + |us|] == ts[i..i + |us + vs|][..|us|];
    assert ts[i + |us|..i + |us| + |vs|] == ts[i..i + |us + vs|][|us|..];
  }

  lemma AtOnly(ts: Tokens, i: nat, t: Token)
    requires At(ts, i, [t])
    ensures i < |ts| && Peek(ts, i) == t
  {
    assert ts[i..i + 1][0] == t;
  }

  lemma AtHead(ts: Tokens, i: nat, t: Token, vs: seq<Token>)
    requires At(ts, i, [t] + vs)
    ensures i < |ts| && Peek(ts, i) == t && At(ts, i + 1, vs)
  {
    AtSplit(ts, i, [t], vs);
    AtOnly(ts, i, t);
  }

  lemma AtFirst(ts: Tokens, i: nat, us: seq<Token>)
    requires At(ts, i, us) && us != []
    ensures i < |ts| && Peek(ts, i) == us[0]
  {
    assert ts[i..i + |us|][0] == us[0];
  }

  /** The tokens that can follow a complete literal in a rendering. */
  predicate Stops(t: Token) { t.RParen? || t.EndOfInput? || t.Comma? || SaysAnd(t) || SaysOr(t) }

  predicate NoOperator(t: Token) { (forall level :: 1 <= level <= 4 ==> OpAt(level, t).None?) && !SaysCollate(t) }

  lemma {:induction false} OperandIsBinary(ts: Tokens, i: nat, e: Scalar, k: nat, level: nat)
    requires i <= |ts| && level <= 4 && ParseUnary(ts, i) == Got(e, k) && NoOperator(Peek(ts, k))
    ensures ParseBinary(ts, i, level) == Got(e, k)
  {
    if level > 0 {
      OperandIsBinary(ts, i, e, k, level - 1);
      assert OpAt(level, Peek(ts, k)).None?;
    }
  }

  lemma OperandIsCollate(ts: Tokens, i: nat, e: Scalar, k: nat)
    requires i <= |ts| && ParseUnary(ts, i) == Got(e, k) && NoOperator(Peek(ts, k))
    ensures ParseCollate(ts, i) == Got(e, k)
  {
    OperandIsBinary(ts, i, e, k, 4);
  }

  lemma StopsEndsAll(t: Token)
    requires Stops(t)
    ensures NoOperator(t) && !t.Dot? && !t.LParen? && CompareOpOf(t).None? && !IsPatternWord(t) && !ContinuesScalar(t)
    ensures !SaysIs(t) && !SaysIsNull(t) && !SaysNotNull(t) && !SaysNot(t) && !SaysIn(t)
    ensures !t.Comma? ==> EndsCondition(t)
  {
  }

  lemma NoSuffix(ts: Tokens, e: Scalar, i: nat)
    requires i <= |ts| && Stops(Peek(ts, i))
    ensures Suffixes(ts, e, i) == Got(e, i)
  {
    StopsEndsAll(Peek(ts, i));
  }

  // ----- Literals ----------------------------------------------------------

  /** How the parser holds a rendered literal. */
  function LiteralScalar(v: Value): Scalar {
    if v.Integer? && MIN_I64 < v.i < 0 then UnaryMinus(Constant(Plain(Integer(0 - v.i)))) else Constant(Plain(v))
  }

  lemma LiteralScalarValue(v: Value)
    ensures ScalarValue(LiteralScalar(v)) == Some(v)
  {
  }

  lemma PlainOperand(ts: Tokens, i: nat, t: Token)
    requires i < |ts| && Peek(ts, i) == t && LiteralOf(t).Some?
    ensures ParseUnary(ts, i) == Got(Constant(LiteralOf(t).value), i + 1)
  {
    assert !IsNameToken(t);
  }

  lemma NegativeOperand(ts: Tokens, i: nat, v: i64)
    requires v < 0 && At(ts, i, [Minus] + [NumberToken(0 - v)])
    ensures ParseUnary(ts, i) == Got(LiteralScalar(Integer(v)), i + 2)
  {
    var t := NumberToken(0 - v);
    AtHead(ts, i, Minus, [t]);
    AtOnly(ts, i + 1, t);
    PlainOperand(ts, i + 1, t);
    assert StartsScalar(t);
  }

  lemma LiteralOperand(ts: Tokens, i: nat, v: Value)
    requires At(ts, i, LiteralTokens(v))
    ensures ParseUnary(ts, i) == Got(LiteralScalar(v), i + |LiteralTokens(v)|)
  {
    if v.Integer? && v.i < 0 {
      assert LiteralTokens(v) == [Minus] + [NumberToken(0 - v.i)];
      NegativeOperand(ts, i, v.i);
    } else {
      var t := LiteralTokens(v)[0];
      assert LiteralTokens(v) == [t] + [];
      AtOnly(ts, i, t);
      PlainOperand(ts, i, t);
    }
  }

  lemma LiteralCollate(ts: Tokens, i: nat, v: Value)
    requires At(ts, i, LiteralTokens(v)) && Stops(Peek(ts, i + |LiteralTokens(v)|))
    ensures ParseCollate(ts, i) == Got(LiteralScalar(v), i + |LiteralTokens(v)|)
    ensures ParseBinary(ts, i, 4) == Got(LiteralScalar(v), i + |LiteralTokens(v)|)
  {
    var k := i + |LiteralTokens(v)|;
    StopsEndsAll(Peek(ts, k));
    LiteralOperand(ts, i, v);
    OperandIsBinary(ts, i, LiteralScalar(v), k, 4);
    OperandIsCollate(ts, i, LiteralScalar(v), k);
  }

  lemma LiteralParses(ts: Tokens, i: nat, v: Value)
    requires At(ts, i, LiteralTokens(v)) && Stops(Peek(ts, i + |LiteralTokens(v)|))
    ensures ParseScalar(ts, i) == Got(LiteralScalar(v), i + |LiteralTokens(v)|)
  {
    LiteralCollate(ts, i, v);
    NoSuffix(ts, LiteralScalar(v), i + |LiteralTokens(v)|);
  }

  // ----- Columns -----------------------------------------------------------

  /** A token the parser reads as this column. */
  predicate ColumnToken(t: Token, name: string) {
    (t == Identifier(name) && !SpecialName(name)) || t == Keyword(SoftWord(name)) ||
        (t == Keyword(ReplaceWord) && name == "replace")
  }

  /** What comes right after a column in a rendering. */
  predicate FollowsColumn(t: Token) {
    NoOperator(t) && !t.Dot? && !t.LParen?
  }

  lemma ColumnParses(ts: Tokens, i: nat, name: string)
    requires i < |ts| && ColumnToken(Peek(ts, i), name) && FollowsColumn(Peek(ts, i + 1))
    ensures ParseCollate(ts, i) == Got(Column(name), i + 1)
  {
    var t := Peek(ts, i);
    assert NameOf(t) == Some(name);
    assert DottedRest(ts, name, i + 1) == Got(name, i + 1);
    assert ParseOperand(ts, i) == Got(Column(name), i + 1);
    OperandIsCollate(ts, i, Column(name), i + 1);
  }

  // ----- Tests -------------------------------------------------------------

  function ListScalars(values: seq<Value>): (r: seq<Scalar>)
    ensures |r| == |values|
  {
    if values == [] then [] else [LiteralScalar(values[0])] + ListScalars(values[1..])
  }

  /** How the parser holds a rendered leaf, before it reads it as a condition. */
  function TestScalar(c: Scalar, test: PlainTest): Scalar {
    match test
    case Compare(op, v) => CompareTest(c, op, LiteralScalar(v))
    case IsNull(negated) => IsTest(c, NULL_SCALAR, negated)
    case GlobMatch(pattern, negated) => Scalar.GlobTest(c, LiteralScalar(Text(pattern)), negated)
    case RegexpMatch(pattern, negated) =>
      var call := RegexpCall(LiteralScalar(Text(pattern)), c);
      if negated then NotOf(call) else call
    case InList(values, negated) => InTest(c, ListScalars(values), negated)
    case Between(low, high, negated) => BetweenTest(c, LiteralScalar(low), LiteralScalar(high), negated)
  }

  lemma CompareParses(ts: Tokens, c: Scalar, i: nat, op: CompareOp, v: Value)
    requires At(ts, i, TestTokens(ColumnTest.Compare(op, v))) &&
             Stops(Peek(ts, i + |TestTokens(ColumnTest.Compare(op, v))|))
    ensures Suffixes(ts, c, i) == Got(CompareTest(c, op, LiteralScalar(v)), i + |TestTokens(ColumnTest.Compare(op, v))|)
  {
    CompareRead(ts, c, i, op, v);
    SuffixChain(ts, c, i, c, i, c, i, c, i);
  }

  lemma CompareRead(ts: Tokens, c: Scalar, i: nat, op: CompareOp, v: Value)
    requires At(ts, i, TestTokens(ColumnTest.Compare(op, v))) &&
             Stops(Peek(ts, i + |TestTokens(ColumnTest.Compare(op, v))|))
    ensures i <= |ts| && IsSuffix(ts, c, i) == Got(c, i) && InSuffix(ts, c, i) == Got(c, i) &&
            PatternSuffix(ts, c, i) == Got(c, i)
    ensures CompareSuffix(ts, c, i) ==
            Got(CompareTest(c, op, LiteralScalar(v)), i + |TestTokens(ColumnTest.Compare(op, v))|)
  {
    hide At, LiteralScalar, ParseCollate, ParseScalar, BetweenBounds;
    AtHead(ts, i, OpToken(op), LiteralTokens(v));
    LiteralCollate(ts, i + 1, v);
    AtFirst(ts, i + 1, LiteralTokens(v));
    assert !LiteralTokens(v)[0].LParen?;
  }

  lemma IsNullRead(ts: Tokens, c: Scalar, i: nat, negated: bool)
    requires At(ts, i, [Keyword(IsWord)] + NegatedTokens(negated, [Keyword(NullWord)]))
    ensures IsSuffix(ts, c, i) == Got(IsTest(c, NULL_SCALAR, negated), i + (if negated then 3 else 2))
  {
    AtHead(ts, i, Keyword(IsWord), NegatedTokens(negated, [Keyword(NullWord)]));
    if negated { AtHead(ts, i + 1, Keyword(NotWord), [Keyword(NullWord)]); }
    AtOnly(ts, if negated then i + 2 else i + 1, Keyword(NullWord));
  }

  /** The keyword of a possibly negated phrase, and what comes after it. */
  lemma NegatedAt(ts: Tokens, i: nat, negated: bool, word: Word, us: seq<Token>)
    requires At(ts, i, NegatedTokens(negated, [Keyword(word)] + us))
    ensures negated ==> SaysNot(Peek(ts, i))
    ensures var j := if negated then i + 1 else i; j < |ts| && Peek(ts, j) == Keyword(word) && At(ts, j + 1, us)
  {
    if negated {
      AtHead(ts, i, Keyword(NotWord), [Keyword(word)] + us);
      AtHead(ts, i + 1, Keyword(word), us);
    } else {
      AtHead(ts, i, Keyword(word), us);
    }
  }

  lemma PatternRead(ts: Tokens, c: Scalar, i: nat, word: Word, pattern: string, negated: bool)
    requires word == GlobWord || word == RegexpWord
    requires At(ts, i, NegatedTokens(negated, [Keyword(word)] + [StringToken(pattern)]))
    requires Stops(Peek(ts, i + (if negated then 3 else 2)))
    ensures var e := LiteralScalar(Text(pattern));
            var call := if negated then NotOf(RegexpCall(e, c)) else RegexpCall(e, c);
            PatternSuffix(ts, c, i) ==
                Got(if word == GlobWord then Scalar.GlobTest(c, e, negated) else call, i + (if negated then 3 else 2))
    ensures IsSuffix(ts, c, i) == Got(c, i) && InSuffix(ts, c, i) == Got(c, i)
  {
    hide SpecialName, Upper;
    hide At, LiteralScalar, ParseScalar, BetweenBounds;
    NegatedAt(ts, i, negated, word, [StringToken(pattern)]);
    var j := if negated then i + 1 else i;
    assert LiteralTokens(Text(pattern)) == [StringToken(pattern)];
    LiteralParses(ts, j + 1, Text(pattern));
  }

  lemma NoCompare(ts: Tokens, e: Scalar, i: nat)
    requires i <= |ts| && Stops(Peek(ts, i))
    ensures CompareSuffix(ts, e, i) == Got(e, i) && PatternSuffix(ts, e, i) == Got(e, i) &&
            InSuffix(ts, e, i) == Got(e, i)
  {
    StopsEndsAll(Peek(ts, i));
  }

  /** The four suffix readers in a row. */
  lemma SuffixChain(ts: Tokens, e: Scalar, i: nat, e1: Scalar, j: nat, e2: Scalar, k: nat, e3: Scalar, m: nat)
    requires i <= |ts| && IsSuffix(ts, e, i) == Got(e1, j) && InSuffix(ts, e1, j) == Got(e2, k) &&
             PatternSuffix(ts, e2, k) == Got(e3, m)
    ensures Suffixes(ts, e, i) == CompareSuffix(ts, e3, m)
  {
  }

  lemma IsNullParses(ts: Tokens, c: Scalar, i: nat, negated: bool)
    requires At(ts, i, TestTokens(ColumnTest.IsNull(negated))) &&
             Stops(Peek(ts, i + |TestTokens(ColumnTest.IsNull(negated))|))
    ensures Suffixes(ts, c, i) == Got(IsTest(c, NULL_SCALAR, negated), i + |TestTokens(ColumnTest.IsNull(negated))|)
  {
    var e, end := IsTest(c, NULL_SCALAR, negated), i + |TestTokens(ColumnTest.IsNull(negated))|;
    IsNullRead(ts, c, i, negated);
    NoCompare(ts, e, end);
    SuffixChain(ts, c, i, e, end, e, end, e, end);
  }

  lemma GlobParses(ts: Tokens, c: Scalar, i: nat, pattern: string, negated: bool)
    requires At(ts, i, TestTokens(GlobMatch(pattern, negated))) &&
             Stops(Peek(ts, i + |TestTokens(GlobMatch(pattern, negated))|))
    ensures Suffixes(ts, c, i) ==
            Got(TestScalar(c, GlobMatch(pattern, negated)), i + |TestTokens(GlobMatch(pattern, negated))|)
  {
    PatternRead(ts, c, i, GlobWord, pattern, negated);
    NoCompare(ts, TestScalar(c, GlobMatch(pattern, negated)), i + |TestTokens(GlobMatch(pattern, negated))|);
  }

  lemma RegexpParses(ts: Tokens, c: Scalar, i: nat, pattern: string, negated: bool)
    requires At(ts, i, TestTokens(RegexpMatch(pattern, negated))) &&
             Stops(Peek(ts, i + |TestTokens(RegexpMatch(pattern, negated))|))
    ensures Suffixes(ts, c, i) ==
            Got(TestScalar(c, RegexpMatch(pattern, negated)), i + |TestTokens(RegexpMatch(pattern, negated))|)
  {
    PatternRead(ts, c, i, RegexpWord, pattern, negated);
    NoCompare(ts, TestScalar(c, RegexpMatch(pattern, negated)), i + |TestTokens(RegexpMatch(pattern, negated))|);
  }

  lemma BetweenBoundsParse(ts: Tokens, c: Scalar, i: nat, low: Value, high: Value, negated: bool)
    requires At(ts, i, LiteralTokens(low) + ([Keyword(AndWord)] + LiteralTokens(high)))
    requires Stops(Peek(ts, i + |LiteralTokens(low)| + 1 + |LiteralTokens(high)|))
    ensures BetweenBounds(ts, c, i, negated)
            == Got(BetweenTest(c, LiteralScalar(low), LiteralScalar(high), negated),
                i + |LiteralTokens(low)| + 1 + |LiteralTokens(high)|)
  {
    hide At, LiteralScalar, LiteralTokens;
    AtSplit(ts, i, LiteralTokens(low), [Keyword(AndWord)] + LiteralTokens(high));
    AtHead(ts, i + |LiteralTokens(low)|, Keyword(AndWord), LiteralTokens(high));
    LiteralCollate(ts, i, low);
    LiteralCollate(ts, i + |LiteralTokens(low)| + 1, high);
  }

  lemma BetweenRead(ts: Tokens, c: Scalar, i: nat, low: Value, high: Value, negated: bool)
    requires At(ts, i,
             NegatedTokens(negated,
                 [Keyword(BetweenWord)] + (LiteralTokens(low) + ([Keyword(AndWord)] + LiteralTokens(high)))))
    requires Stops(Peek(ts, i + |LiteralTokens(low)| + |LiteralTokens(high)| + (if negated then 3 else 2)))
    ensures IsSuffix(ts, c, i) == Got(c, i) && InSuffix(ts, c, i) == Got(c, i)
    ensures PatternSuffix(ts, c, i) == Got(BetweenTest(c, LiteralScalar(low), LiteralScalar(high), negated),
                                           i + |LiteralTokens(low)| + |LiteralTokens(high)| +
                                               (if negated then 3 else 2))
  {
    hide At, LiteralScalar, LiteralTokens, ParseScalar, BetweenBounds, Stops, NegatedTokens;
    NegatedAt(ts, i, negated, BetweenWord, LiteralTokens(low) + ([Keyword(AndWord)] + LiteralTokens(high)));
    BetweenBoundsParse(ts, c, if negated then i + 2 else i + 1, low, high, negated);
  }

  lemma BetweenParses(ts: Tokens, c: Scalar, i: nat, low: Value, high: Value, negated: bool)
    requires At(ts, i, TestTokens(ColumnTest.Between(low, high, negated)))
    requires Stops(Peek(ts, i + |TestTokens(ColumnTest.Between(low, high, negated))|))
    ensures Suffixes(ts, c, i)
            == Got(BetweenTest(c, LiteralScalar(low), LiteralScalar(high), negated),
                i + |TestTokens(ColumnTest.Between(low, high, negated))|)
  {
    var e, end := BetweenTest(c, LiteralScalar(low), LiteralScalar(high), negated),
        i + |TestTokens(ColumnTest.Between(low, high, negated))|;
    BetweenRead(ts, c, i, low, high, negated);
    NoCompare(ts, e, end);
    SuffixChain(ts, c, i, c, i, c, i, e, end);
  }

  function ListWidth(values: seq<Value>): (n: nat)
    ensures n == |ListTokens(values)|
  {
    if values == [] then 0 else if |values| == 1 then |LiteralTokens(values[0])|
    else |LiteralTokens(values[0])| + 1 + ListWidth(values[1..])
  }

  /** A rendered list and its closing bracket, from a position on. */
  ghost predicate ListPrinted(ts: Tokens, i: nat, values: seq<Value>)
    requires values != []
    decreases |values|
  {
    var k := i + |LiteralTokens(values[0])|;
    && At(ts, i, LiteralTokens(values[0])) && k < |ts|
    && (if |values| == 1 then Peek(ts, k).RParen? else Peek(ts, k).Comma? && ListPrinted(ts, k + 1, values[1..]))
  }

  lemma {:induction false} ListPrintedAt(ts: Tokens, i: nat, values: seq<Value>)
    requires values != [] && At(ts, i, ListTokens(values) + [RParen])
    ensures ListPrinted(ts, i, values)
    decreases |values|
  {
    hide At, LiteralTokens;
    var us := LiteralTokens(values[0]);
    if |values| == 1 {
      AtSplit(ts, i, us, [RParen]);
      AtOnly(ts, i + |us|, RParen);
    } else {
      var rest := ListTokens(values[1..]) + [RParen];
      assert ListTokens(values) + [RParen] == us + ([Comma] + rest);
      AtSplit(ts, i, us, [Comma] + rest);
      AtHead(ts, i + |us|, Comma, rest);
      ListPrintedAt(ts, i + |us| + 1, values[1..]);
    }
  }

  lemma ValueListLast(ts: Tokens, i: nat, e: Scalar, k: nat, read: seq<Scalar>)
    requires i <= |ts| && ParseScalar(ts, i) == Got(e, k) && Peek(ts, k).RParen?
    ensures ValueList(ts, i, read) == Got(read + [e], k + 1)
  {
  }

  lemma ValueListMore(ts: Tokens, i: nat, e: Scalar, k: nat, read: seq<Scalar>)
    requires i <= |ts| && ParseScalar(ts, i) == Got(e, k) && Peek(ts, k).Comma?
    ensures ValueList(ts, i, read) == ValueList(ts, k + 1, read + [e])
  {
  }

  lemma ListScalarsStep(values: seq<Value>, read: seq<Scalar>)
    requires values != []
    ensures read + [LiteralScalar(values[0])] + ListScalars(values[1..]) == read + ListScalars(values)
  {
  }

  lemma {:induction false} ValueListParses(ts: Tokens, i: nat, values: seq<Value>, read: seq<Scalar>)
    requires values != [] && ListPrinted(ts, i, values)
    ensures i <= |ts| && ValueList(ts, i, read) == Got(read + ListScalars(values), i + ListWidth(values) + 1)
    decreases |values|
  {
    hide ValueList, ParseScalar, LiteralScalar, At;
    var e, k := LiteralScalar(values[0]), i + |LiteralTokens(values[0])|;
    LiteralParses(ts, i, values[0]);
    if |values| == 1 {
      ValueListLast(ts, i, e, k, read);
      assert ListScalars(values) == [e];
    } else {
      ValueListMore(ts, i, e, k, read);
      ValueListParses(ts, k + 1, values[1..], read + [e]);
      ListScalarsStep(values, read);
    }
  }

  lemma FirstLiteralToken(v: Value)
    ensures LiteralTokens(v) != [] && !LiteralTokens(v)[0].RParen?
    ensures !SaysSelect(LiteralTokens(v)[0]) && !SaysValues(LiteralTokens(v)[0])
  {
  }

  lemma ListStart(ts: Tokens, i: nat, values: seq<Value>)
    requires values != [] && ListPrinted(ts, i, values)
    ensures !Peek(ts, i).RParen? && !SaysSelect(Peek(ts, i)) && !SaysValues(Peek(ts, i))
  {
    FirstLiteralToken(values[0]);
    AtFirst(ts, i, LiteralTokens(values[0]));
  }

  lemma BracketedList(ts: Tokens, i: nat, list: seq<Scalar>, k: nat)
    requires i < |ts| && Peek(ts, i).LParen? && ValueList(ts, i + 1, []) == Got(list, k)
    requires !Peek(ts, i + 1).RParen? && !SaysSelect(Peek(ts, i + 1)) && !SaysValues(Peek(ts, i + 1))
    ensures CheckParsing.InList(ts, i) == Got(list, k)
  {
  }

  lemma NonEmptyListParses(ts: Tokens, i: nat, values: seq<Value>)
    requires i < |ts| && values != [] && Peek(ts, i).LParen? && ListPrinted(ts, i + 1, values)
    ensures CheckParsing.InList(ts, i) == Got(ListScalars(values), i + ListWidth(values) + 2)
  {
    hide ListPrinted, ListScalars, ValueList, ListWidth;
    ListStart(ts, i + 1, values);
    ValueListParses(ts, i + 1, values, []);
    assert [] + ListScalars(values) == ListScalars(values);
    BracketedList(ts, i, ListScalars(values), i + ListWidth(values) + 2);
  }

  lemma InListParsesList(ts: Tokens, i: nat, values: seq<Value>)
    requires At(ts, i, BracketTokens(ListTokens(values)))
    ensures CheckParsing.InList(ts, i) == Got(ListScalars(values), i + |ListTokens(values)| + 2)
  {
    AtHead(ts, i, LParen, ListTokens(values) + [RParen]);
    if values == [] {
      assert ListTokens(values) + [RParen] == [RParen];
      AtOnly(ts, i + 1, RParen);
    } else {
      ListPrintedAt(ts, i + 1, values);
      NonEmptyListParses(ts, i, values);
      assert ListWidth(values) == |ListTokens(values)|;
    }
  }

  lemma InRead(ts: Tokens, c: Scalar, i: nat, values: seq<Value>, negated: bool)
    requires At(ts, i, NegatedTokens(negated, [Keyword(InWord)] + BracketTokens(ListTokens(values))))
    ensures IsSuffix(ts, c, i) == Got(c, i)
    ensures InSuffix(ts, c, i) ==
            Got(InTest(c, ListScalars(values), negated), i + |ListTokens(values)| + (if negated then 4 else 3))
  {
    hide CheckParsing.InList, ListScalars, ListTokens, ParseScalar, At;
    NegatedAt(ts, i, negated, InWord, BracketTokens(ListTokens(values)));
    InListParsesList(ts, if negated then i + 2 else i + 1, values);
  }

  lemma InParses(ts: Tokens, c: Scalar, i: nat, values: seq<Value>, negated: bool)
    requires At(ts, i, TestTokens(ColumnTest.InList(values, negated)))
    requires Stops(Peek(ts, i + |TestTokens(ColumnTest.InList(values, negated))|))
    ensures Suffixes(ts, c, i) ==
            Got(InTest(c, ListScalars(values), negated), i + |TestTokens(ColumnTest.InList(values, negated))|)
  {
    hide At, ListScalars, ListTokens, Suffixes, IsSuffix, InSuffix, PatternSuffix, CompareSuffix;
    var e, end := InTest(c, ListScalars(values), negated), i + |TestTokens(ColumnTest.InList(values, negated))|;
    InRead(ts, c, i, values, negated);
    NoCompare(ts, e, end);
    SuffixChain(ts, c, i, c, i, e, end, e, end);
  }

  lemma TestParses(ts: Tokens, c: Scalar, i: nat, test: PlainTest)
    requires At(ts, i, TestTokens(test)) && Stops(Peek(ts, i + |TestTokens(test)|))
    ensures Suffixes(ts, c, i) == Got(TestScalar(c, test), i + |TestTokens(test)|)
  {
    hide Suffixes, At, Peek, Stops, LiteralTokens, LiteralScalar, ListTokens, ListScalars;
    match test
    case Compare(op, v) => CompareParses(ts, c, i, op, v);
    case IsNull(negated) => IsNullParses(ts, c, i, negated);
    case GlobMatch(pattern, negated) => GlobParses(ts, c, i, pattern, negated);
    case RegexpMatch(pattern, negated) => RegexpParses(ts, c, i, pattern, negated);
    case InList(values, negated) => InParses(ts, c, i, values, negated);
    case Between(low, high, negated) => BetweenParses(ts, c, i, low, high, negated);
  }

  lemma TestFollowsColumn(test: PlainTest)
    ensures TestTokens(test) != [] && FollowsColumn(TestTokens(test)[0])
  {
  }

  // ----- Conditions --------------------------------------------------------

  /** What the parser makes of a rendered leaf. */
  function LeafQuery(name: string, test: PlainTest): Query {
    match test
    case Compare(op, v) => Compares(name, op, v)
    case IsNull(negated) => IsNulls(name, negated)
    case GlobMatch(pattern, negated) => Globs(name, LiteralScalar(Text(pattern)), negated)
    case RegexpMatch(_, _) => IsBool(TestScalar(Column(name), test), true, false, false)
    case InList(values, negated) => Ins(name, values, negated)
    case Between(low, high, negated) => Betweens(name, low, high, negated)
  }

  lemma {:induction false} ListScalarsRead(values: seq<Value>)
    ensures ScalarValues(ListScalars(values)) == Some(values)
  {
    if values != [] {
      ListScalarsRead(values[1..]);
      LiteralScalarValue(values[0]);
      assert ListScalars(values)[1..] == ListScalars(values[1..]);
      assert [values[0]] + values[1..] == values;
    }
  }

  lemma LeafCondition(name: string, test: PlainTest)
    ensures ConditionOf(TestScalar(Column(name), test)) == if test.RegexpMatch? then None
            else Some(LeafQuery(name, test))
  {
    match test
    case Compare(op, v) => LiteralScalarValue(v);
    case InList(values, _) => ListScalarsRead(values);
    case Between(low, high, _) => LiteralScalarValue(low); LiteralScalarValue(high);
    case _ =>
  }

  /** The tokens that can follow a complete expression in a rendering. */
  predicate Closes(t: Token) { t.RParen? || t.EndOfInput? }

  lemma LeafTokens(ts: Tokens, i: nat, t: Token, test: PlainTest)
    requires At(ts, i, [t] + TestTokens(test))
    ensures i < |ts| && Peek(ts, i) == t && At(ts, i + 1, TestTokens(test)) && FollowsColumn(Peek(ts, i + 1))
  {
    var us := TestTokens(test);
    AtHead(ts, i, t, us);
    TestFollowsColumn(test);
    AtFirst(ts, i + 1, us);
  }

  lemma LeafScalar(ts: Tokens, i: nat, t: Token, name: string, test: PlainTest)
    requires ColumnToken(t, name) && At(ts, i, [t] + TestTokens(test)) && Stops(Peek(ts, i + 1 + |TestTokens(test)|))
    ensures ParseScalar(ts, i) == Got(TestScalar(Column(name), test), i + 1 + |TestTokens(test)|)
  {
    LeafTokens(ts, i, t, test);
    ColumnParses(ts, i, name);
    TestParses(ts, Column(name), i + 1, test);
  }

  lemma ColumnStarts(t: Token, name: string)
    requires ColumnToken(t, name)
    ensures StartsScalar(t) && !t.LParen? && !SaysNot(t) && !SaysExists(t)
  {
  }

  /** The tokens that can follow a condition: those that close it, and the connectives. */
  predicate Follows(t: Token) { Stops(t) && !t.Comma? }

  lemma ConditionFrom(ts: Tokens, i: nat, e: Scalar, k: nat)
    requires i <= |ts| && StartsScalar(Peek(ts, i)) && ParseScalar(ts, i) == Got(e, k) && Follows(Peek(ts, k))
    ensures ParseCondition(ts, i) ==
            Got(if ConditionOf(e).Some? then ConditionOf(e).value else IsBool(e, true, false, false), k)
  {
  }

  lemma ConditionAlone(ts: Tokens, i: nat)
    requires i <= |ts| && !Peek(ts, i).LParen? && !SaysNot(Peek(ts, i)) && !SaysExists(Peek(ts, i))
    ensures ParseNot(ts, i) == ParseCondition(ts, i)
  {
  }

  lemma LeafParses(ts: Tokens, i: nat, t: Token, name: string, test: PlainTest)
    requires ColumnToken(t, name) && At(ts, i, [t] + TestTokens(test)) && Follows(Peek(ts, i + 1 + |TestTokens(test)|))
    ensures i <= |ts| && ParseNot(ts, i) == Got(LeafQuery(name, test), i + 1 + |TestTokens(test)|)
  {
    LeafTokens(ts, i, t, test);
    ColumnStarts(t, name);
    LeafScalar(ts, i, t, name, test);
    LeafCondition(name, test);
    ConditionFrom(ts, i, TestScalar(Column(name), test), i + 1 + |TestTokens(test)|);
    ConditionAlone(ts, i);
  }

  // ----- Expressions -------------------------------------------------------

  function QueryOf(e: PlainCheck): Query {
    match e
    case Leaf(name, test) => LeafQuery(name, test)
    case And(l, r) => AndQuery(QueryOf(l), QueryOf(r))
    case Or(l, r) => OrQuery(QueryOf(l), QueryOf(r))
    case Not(inner) => NotQuery(QueryOf(inner))
  }

  /** That a token stands for a column of this name. */
  type Naming = (Token, string) -> bool

  /** Every column name becomes a token that stands for it. */
  ghost predicate Named(naming: Naming, word: string -> Token, e: PlainCheck) {
    match e
    case Leaf(column, _) => naming(word(column), column)
    case And(l, r) => Named(naming, word, l) && Named(naming, word, r)
    case Or(l, r) => Named(naming, word, l) && Named(naming, word, r)
    case Not(inner) => Named(naming, word, inner)
  }

  function ParserNaming(): Naming { (t, name) => ColumnToken(t, name) }

  /** A bracketed condition in front of a token that does not continue a scalar. */
  lemma GroupParses(ts: Tokens, i: nat, q: Query, k: nat)
    requires i < |ts| && Peek(ts, i).LParen? && ParseOr(ts, i + 1) == Got(q, k) && Peek(ts, k).RParen? &&
             Stops(Peek(ts, k + 1))
    ensures ParsePrimary(ts, i) == Got(q, k + 1) && ParseNot(ts, i) == Got(q, k + 1)
  {
    StopsEndsAll(Peek(ts, k + 1));
  }

  lemma NoRest(ts: Tokens, q: Query, i: nat)
    requires i <= |ts| && Closes(Peek(ts, i))
    ensures AndRest(ts, q, i) == Got(q, i) && OrRest(ts, q, i) == Got(q, i)
  {
  }

  /** One negation-level condition up to a closing token. */
  lemma AloneParses(ts: Tokens, i: nat, q: Query, k: nat)
    requires i <= |ts| && ParseNot(ts, i) == Got(q, k) && Closes(Peek(ts, k))
    ensures ParseAnd(ts, i) == Got(q, k) && ParseOr(ts, i) == Got(q, k)
  {
    NoRest(ts, q, k);
  }

  lemma AndParses(ts: Tokens, i: nat, p: Query, k: nat, q: Query, m: nat)
    requires i <= |ts| && ParseNot(ts, i) == Got(p, k) && SaysAnd(Peek(ts, k))
    requires ParseNot(ts, k + 1) == Got(q, m) && Closes(Peek(ts, m))
    ensures ParseOr(ts, i) == Got(AndQuery(p, q), m)
  {
    NoRest(ts, AndQuery(p, q), m);
    assert AndRest(ts, p, k) == Got(AndQuery(p, q), m);
    assert ParseAnd(ts, i) == Got(AndQuery(p, q), m);
  }

  lemma OrParses(ts: Tokens, i: nat, p: Query, k: nat, q: Query, m: nat)
    requires i <= |ts| && ParseNot(ts, i) == Got(p, k) && SaysOr(Peek(ts, k))
    requires ParseNot(ts, k + 1) == Got(q, m) && Closes(Peek(ts, m))
    ensures ParseOr(ts, i) == Got(OrQuery(p, q), m)
  {
    AloneParses(ts, k + 1, q, m);
    NoRest(ts, OrQuery(p, q), m);
    assert ParseAnd(ts, i) == Got(p, k);
    assert OrRest(ts, p, k) == Got(OrQuery(p, q), m);
  }

  lemma NotParses(ts: Tokens, i: nat, q: Query, k: nat)
    requires i < |ts| && SaysNot(Peek(ts, i)) && Peek(ts, i + 1).LParen? && ParseNot(ts, i + 1) == Got(q, k)
    ensures ParseNot(ts, i) == Got(NotQuery(q), k)
  {
  }

  /** How many tokens a rendering has. */
  function Width(e: PlainCheck): nat {
    match e
    case Leaf(_, test) => 1 + |TestTokens(test)|
    case And(l, r) => Width(l) + Width(r) + 5
    case Or(l, r) => Width(l) + Width(r) + 5
    case Not(inner) => Width(inner) + 3
  }

  /** A rendering laid out from a position on. */
  ghost predicate Printed(word: string -> Token, ts: Tokens, i: nat, e: PlainCheck)
    decreases e, 0
  {
    match e
    case Leaf(name, test) => At(ts, i, [word(name)] + TestTokens(test))
    case And(l, r) =>
        InBracketsAt(word, ts, i, l) && SaysAnd(Peek(ts, i + Width(l) + 2)) &&
            InBracketsAt(word, ts, i + Width(l) + 3, r)
    case Or(l, r) =>
        InBracketsAt(word, ts, i, l) && SaysOr(Peek(ts, i + Width(l) + 2)) &&
            InBracketsAt(word, ts, i + Width(l) + 3, r)
    case Not(inner) => i < |ts| && SaysNot(Peek(ts, i)) && InBracketsAt(word, ts, i + 1, inner)
  }

  ghost predicate InBracketsAt(word: string -> Token, ts: Tokens, i: nat, e: PlainCheck)
    decreases e, 1
  {
    i + Width(e) + 2 <= |ts| && Peek(ts, i).LParen? && Printed(word, ts, i + 1, e) && Peek(ts, i + 1 + Width(e)).RParen?
  }

  lemma ConnectedAt(ts: Tokens, i: nat, us: seq<Token>, connective: Word, vs: seq<Token>)
    requires At(ts, i, BracketTokens(us) + ([Keyword(connective)] + BracketTokens(vs)))
    ensures At(ts, i, BracketTokens(us)) && Peek(ts, i + |us| + 2) == Keyword(connective) &&
            At(ts, i + |us| + 3, BracketTokens(vs))
  {
    AtSplit(ts, i, BracketTokens(us), [Keyword(connective)] + BracketTokens(vs));
    AtHead(ts, i + |us| + 2, Keyword(connective), BracketTokens(vs));
  }

  lemma {:induction false} WidthCounts(word: string -> Token, e: PlainCheck)
    ensures |CheckTokens(word, e)| == Width(e)
  {
    match e
    case Leaf(_, _) =>
    case And(l, r) => WidthCounts(word, l); WidthCounts(word, r);
    case Or(l, r) => WidthCounts(word, l); WidthCounts(word, r);
    case Not(inner) => WidthCounts(word, inner);
  }

  lemma {:induction false} TokensPrinted(word: string -> Token, ts: Tokens, i: nat, e: PlainCheck)
    requires At(ts, i, CheckTokens(word, e))
    ensures Printed(word, ts, i, e)
    decreases e, 0
  {
    hide At, BracketTokens, TestTokens, InBracketsAt;
    match e
    case Leaf(_, _) =>
    case And(l, r) =>
      WidthCounts(word, l);
      ConnectedAt(ts, i, CheckTokens(word, l), AndWord, CheckTokens(word, r));
      BracketsPrinted(word, ts, i, l);
      BracketsPrinted(word, ts, i + Width(l) + 3, r);
    case Or(l, r) =>
      WidthCounts(word, l);
      ConnectedAt(ts, i, CheckTokens(word, l), OrWord, CheckTokens(word, r));
      BracketsPrinted(word, ts, i, l);
      BracketsPrinted(word, ts, i + Width(l) + 3, r);
    case Not(inner) =>
      AtHead(ts, i, Keyword(NotWord), BracketTokens(CheckTokens(word, inner)));
      BracketsPrinted(word, ts, i + 1, inner);
  }

  lemma BracketsAt(ts: Tokens, i: nat, us: seq<Token>)
    requires At(ts, i, BracketTokens(us))
    ensures Peek(ts, i).LParen? && At(ts, i + 1, us) && Peek(ts, i + 1 + |us|).RParen? && i + |us| + 2 <= |ts|
  {
    AtHead(ts, i, LParen, us + [RParen]);
    AtSplit(ts, i + 1, us, [RParen]);
    AtOnly(ts, i + 1 + |us|, RParen);
  }

  lemma {:induction false} BracketsPrinted(word: string -> Token, ts: Tokens, i: nat, e: PlainCheck)
    requires At(ts, i, BracketTokens(CheckTokens(word, e)))
    ensures InBracketsAt(word, ts, i, e)
    decreases e, 1
  {
    WidthCounts(word, e);
    BracketsAt(ts, i, CheckTokens(word, e));
    TokensPrinted(word, ts, i + 1, e);
  }

  // ----- The grammar of conditions -----------------------------------------

  /** That a condition is read from one position up to another. */
  type Reading = (nat, Query, nat) -> bool

  /** `ParseNot` and `ParseOr` on these tokens, as readings. */
  ghost function Units(ts: Tokens): Reading { (i: nat, q: Query, k: nat) => i <= |ts| && ParseNot(ts, i) == Got(q, k) }
  ghost function Wholes(ts: Tokens): Reading { (i: nat, q: Query, k: nat) => i <= |ts| && ParseOr(ts, i) == Got(q, k) }

  ghost predicate AndRule(ts: Tokens, unit: Reading, whole: Reading, i: nat, p: Query, k: nat, q: Query, m: nat) {
    unit(i, p, k) && SaysAnd(Peek(ts, k)) && unit(k + 1, q, m) && Closes(Peek(ts, m)) ==> whole(i, AndQuery(p, q), m)
  }

  ghost predicate OrRule(ts: Tokens, unit: Reading, whole: Reading, i: nat, p: Query, k: nat, q: Query, m: nat) {
    unit(i, p, k) && SaysOr(Peek(ts, k)) && unit(k + 1, q, m) && Closes(Peek(ts, m)) ==> whole(i, OrQuery(p, q), m)
  }

  ghost predicate AloneRule(ts: Tokens, unit: Reading, whole: Reading, i: nat, q: Query, k: nat) {
    unit(i, q, k) && Closes(Peek(ts, k)) ==> whole(i, q, k)
  }

  ghost predicate NotRule(ts: Tokens, unit: Reading, i: nat, q: Query, k: nat) {
    SaysNot(Peek(ts, i)) && Peek(ts, i + 1).LParen? && unit(i + 1, q, k) ==> unit(i, NotQuery(q), k)
  }

  ghost predicate GroupRule(ts: Tokens, unit: Reading, whole: Reading, i: nat, q: Query, k: nat) {
    Peek(ts, i).LParen? && whole(i + 1, q, k) && Peek(ts, k).RParen? && Stops(Peek(ts, k + 1)) ==> unit(i, q, k + 1)
  }

  ghost predicate LeafRule(naming: Naming, ts: Tokens, unit: Reading, i: nat, t: Token, name: string, test: PlainTest) {
    naming(t, name) && At(ts, i, [t] + TestTokens(test)) && Closes(Peek(ts, i + 1 + |TestTokens(test)|)) ==>
      unit(i, LeafQuery(name, test), i + 1 + |TestTokens(test)|)
  }

  ghost predicate Grammar(naming: Naming, ts: Tokens, unit: Reading, whole: Reading) {
    && (forall i: nat, p: Query, k: nat, q: Query, m: nat :: AndRule(ts, unit, whole, i, p, k, q, m))
    && (forall i: nat, p: Query, k: nat, q: Query, m: nat :: OrRule(ts, unit, whole, i, p, k, q, m))
    && (forall i: nat, q: Query, k: nat :: AloneRule(ts, unit, whole, i, q, k))
    && (forall i: nat, q: Query, k: nat :: NotRule(ts, unit, i, q, k))
    && (forall i: nat, q: Query, k: nat :: GroupRule(ts, unit, whole, i, q, k))
    && (forall i: nat, t: Token, name: string, test: PlainTest :: LeafRule(naming, ts, unit, i, t, name, test))
  }

  lemma ParserBinaryRules(ts: Tokens)
    ensures forall i: nat, p: Query, k: nat, q: Query, m: nat :: AndRule(ts, Units(ts), Wholes(ts), i, p, k, q, m)
    ensures forall i: nat, p: Query, k: nat, q: Query, m: nat :: OrRule(ts, Units(ts), Wholes(ts), i, p, k, q, m)
  {
    forall i: nat, p: Query, k: nat, q: Query, m: nat ensures AndRule(ts, Units(ts), Wholes(ts), i, p, k, q, m) {
      if i <= |ts| && ParseNot(ts, i) == Got(p, k) && SaysAnd(Peek(ts, k)) && ParseNot(ts, k + 1) == Got(q, m) &&
          Closes(Peek(ts, m)) {
        AndParses(ts, i, p, k, q, m);
      }
    }
    forall i: nat, p: Query, k: nat, q: Query, m: nat ensures OrRule(ts, Units(ts), Wholes(ts), i, p, k, q, m) {
      if i <= |ts| && ParseNot(ts, i) == Got(p, k) && SaysOr(Peek(ts, k)) && ParseNot(ts, k + 1) == Got(q, m) &&
          Closes(Peek(ts, m)) {
        OrParses(ts, i, p, k, q, m);
      }
    }
  }

  lemma ParserUnaryRules(ts: Tokens)
    ensures forall i: nat, q: Query, k: nat :: AloneRule(ts, Units(ts), Wholes(ts), i, q, k)
    ensures forall i: nat, q: Query, k: nat :: NotRule(ts, Units(ts), i, q, k)
    ensures forall i: nat, q: Query, k: nat :: GroupRule(ts, Units(ts), Wholes(ts), i, q, k)
  {
    forall i: nat, q: Query, k: nat ensures AloneRule(ts, Units(ts), Wholes(ts), i, q, k) {
      if i <= |ts| && ParseNot(ts, i) == Got(q, k) && Closes(Peek(ts, k)) { AloneParses(ts, i, q, k); }
    }
    forall i: nat, q: Query, k: nat ensures NotRule(ts, Units(ts), i, q, k) {
      if SaysNot(Peek(ts, i)) && Peek(ts, i + 1).LParen? && ParseNot(ts, i + 1) == Got(q, k) { NotParses(ts, i, q, k); }
    }
    forall i: nat, q: Query, k: nat ensures GroupRule(ts, Units(ts), Wholes(ts), i, q, k) {
      if Peek(ts, i).LParen? && ParseOr(ts, i + 1) == Got(q, k) && Peek(ts, k).RParen? && Stops(Peek(ts, k + 1)) {
          GroupParses(ts, i, q, k); }
    }
  }

  lemma ParserLeafRule(ts: Tokens)
    ensures forall i: nat, t: Token, name: string, test: PlainTest ::
            LeafRule(ParserNaming(), ts, Units(ts), i, t, name, test)
  {
    forall i: nat, t: Token, name: string, test: PlainTest
      ensures LeafRule(ParserNaming(), ts, Units(ts), i, t, name, test)
    {
      if ColumnToken(t, name) && At(ts, i, [t] + TestTokens(test)) && Closes(Peek(ts, i + 1 + |TestTokens(test)|)) {
        LeafParses(ts, i, t, name, test);
      }
    }
  }

  /** The parser follows the grammar of rendered conditions. */
  lemma ParserFollowsGrammar(ts: Tokens)
    ensures Grammar(ParserNaming(), ts, Units(ts), Wholes(ts))
  {
    ParserBinaryRules(ts);
    ParserUnaryRules(ts);
    ParserLeafRule(ts);
  }

  /** Whatever follows the grammar reads a rendered expression as its own structure. */
  lemma {:induction false} CheckReads(naming: Naming, word: string -> Token, ts: Tokens, unit: Reading, whole: Reading,
      i: nat, e: PlainCheck)
    requires Grammar(naming, ts, unit, whole) && Named(naming, word, e) && Printed(word, ts, i, e) &&
             Closes(Peek(ts, i + Width(e)))
    ensures whole(i, QueryOf(e), i + Width(e))
    decreases e, 1
  {
    hide InBracketsAt, LeafQuery, TestTokens, At, Peek, Closes;
    match e
    case Leaf(name, test) => LeafReads(naming, ts, unit, whole, i, word(name), name, test);
    case And(l, r) => AndReads(naming, word, ts, unit, whole, i, l, r);
    case Or(l, r) => OrReads(naming, word, ts, unit, whole, i, l, r);
    case Not(inner) => NotReads(naming, word, ts, unit, whole, i, inner);
  }

  lemma LeafReads(naming: Naming, ts: Tokens, unit: Reading, whole: Reading, i: nat, t: Token, name: string,
      test: PlainTest)
    requires Grammar(naming, ts, unit, whole) && naming(t, name) && At(ts, i, [t] + TestTokens(test)) &&
             Closes(Peek(ts, i + 1 + |TestTokens(test)|))
    ensures whole(i, LeafQuery(name, test), i + 1 + |TestTokens(test)|)
  {
    assert LeafRule(naming, ts, unit, i, t, name, test);
    assert AloneRule(ts, unit, whole, i, LeafQuery(name, test), i + 1 + |TestTokens(test)|);
  }

  lemma {:induction false} AndReads(naming: Naming, word: string -> Token, ts: Tokens, unit: Reading, whole: Reading,
      i: nat, l: PlainCheck, r: PlainCheck)
    requires Grammar(naming, ts, unit, whole) && Named(naming, word, l) && Named(naming, word, r) &&
             Closes(Peek(ts, i + Width(l) + Width(r) + 5))
    requires InBracketsAt(word, ts, i, l) && SaysAnd(Peek(ts, i + Width(l) + 2)) &&
             InBracketsAt(word, ts, i + Width(l) + 3, r)
    ensures whole(i, AndQuery(QueryOf(l), QueryOf(r)), i + Width(l) + Width(r) + 5)
    decreases CheckExpr.And(l, r), 0
  {
    hide QueryOf, Width, Named, InBracketsAt, Printed;
    var p, k, q, m := QueryOf(l), i + Width(l) + 2, QueryOf(r), i + Width(l) + Width(r) + 5;
    GroupReads(naming, word, ts, unit, whole, i, l);
    GroupReads(naming, word, ts, unit, whole, k + 1, r);
    assert AndRule(ts, unit, whole, i, p, k, q, m);
  }

  lemma {:induction false} OrReads(naming: Naming, word: string -> Token, ts: Tokens, unit: Reading, whole: Reading,
      i: nat, l: PlainCheck, r: PlainCheck)
    requires Grammar(naming, ts, unit, whole) && Named(naming, word, l) && Named(naming, word, r) &&
             Closes(Peek(ts, i + Width(l) + Width(r) + 5))
    requires InBracketsAt(word, ts, i, l) && SaysOr(Peek(ts, i + Width(l) + 2)) &&
             InBracketsAt(word, ts, i + Width(l) + 3, r)
    ensures whole(i, OrQuery(QueryOf(l), QueryOf(r)), i + Width(l) + Width(r) + 5)
    decreases CheckExpr.Or(l, r), 0
  {
    hide QueryOf, Width, Named, InBracketsAt, Printed;
    var p, k, q, m := QueryOf(l), i + Width(l) + 2, QueryOf(r), i + Width(l) + Width(r) + 5;
    GroupReads(naming, word, ts, unit, whole, i, l);
    GroupReads(naming, word, ts, unit, whole, k + 1, r);
    assert OrRule(ts, unit, whole, i, p, k, q, m);
  }

  lemma {:induction false} NotReads(naming: Naming, word: string -> Token, ts: Tokens, unit: Reading, whole: Reading,
      i: nat, inner: PlainCheck)
    requires Grammar(naming, ts, unit, whole) && Named(naming, word, inner) && Closes(Peek(ts, i + Width(inner) + 3))
    requires SaysNot(Peek(ts, i)) && InBracketsAt(word, ts, i + 1, inner)
    ensures whole(i, NotQuery(QueryOf(inner)), i + Width(inner) + 3)
    decreases CheckExpr.Not(inner), 0
  {
    hide QueryOf, Width, Named, Printed;
    var q, k := QueryOf(inner), i + Width(inner) + 3;
    GroupReads(naming, word, ts, unit, whole, i + 1, inner);
    assert NotRule(ts, unit, i, q, k);
    assert AloneRule(ts, unit, whole, i, NotQuery(q), k);
  }

  lemma {:induction false} GroupReads(naming: Naming, word: string -> Token, ts: Tokens, unit: Reading, whole: Reading,
      i: nat, e: PlainCheck)
    requires Grammar(naming, ts, unit, whole) && Named(naming, word, e) && InBracketsAt(word, ts, i, e) &&
             Stops(Peek(ts, i + Width(e) + 2))
    ensures unit(i, QueryOf(e), i + Width(e) + 2)
    decreases e, 2
  {
    hide QueryOf, Width, Named, Printed;
    CheckReads(naming, word, ts, unit, whole, i + 1, e);
    assert GroupRule(ts, unit, whole, i, QueryOf(e), i + 1 + Width(e));
  }

  /** A rendered expression parses as its own structure, up to a closing token. */
  lemma CheckParses(word: string -> Token, ts: Tokens, i: nat, e: PlainCheck)
    requires Named(ParserNaming(), word, e) && At(ts, i, CheckTokens(word, e)) &&
             Closes(Peek(ts, i + |CheckTokens(word, e)|))
    ensures i <= |ts| && ParseOr(ts, i) == Got(QueryOf(e), i + |CheckTokens(word, e)|)
  {
    TokensPrinted(word, ts, i, e);
    WidthCounts(word, e);
    ParserFollowsGrammar(ts);
    CheckReads(ParserNaming(), word, ts, Units(ts), Wholes(ts), i, e);
  }

  // ----- The round trip ----------------------------------------------------

  /** Names that read back as themselves when written bare: one word that is no keyword and starts no
      special form, or one of the keywords the parser takes for names, in lower case. */
  predicate Readable(name: string) {
    WordShaped(name) &&
    match WordToken(name)
    case Identifier(_) => !SpecialName(name)
    case Keyword(SoftWord(n)) => n == name
    case Keyword(ReplaceWord) => name == "replace"
    case _ => false
  }

  ghost predicate ReadableColumns(e: PlainCheck) {
    match e
    case Leaf(column, _) => Readable(column)
    case And(l, r) => ReadableColumns(l) && ReadableColumns(r)
    case Or(l, r) => ReadableColumns(l) && ReadableColumns(r)
    case Not(inner) => ReadableColumns(inner)
  }

  lemma ReadableIsNamed(name: string)
    requires Readable(name)
    ensures WordShaped(name) && ColumnToken(WordToken(name), name)
  {
  }

  lemma {:induction false} ReadableAreNamed(e: PlainCheck)
    requires ReadableColumns(e)
    ensures ColumnsWordShaped(e) && Named(ParserNaming(), BareWord(), e)
  {
    match e
    case Leaf(column, _) => ReadableIsNamed(column);
    case And(l, r) => ReadableAreNamed(l); ReadableAreNamed(r);
    case Or(l, r) => ReadableAreNamed(l); ReadableAreNamed(r);
    case Not(inner) => ReadableAreNamed(inner);
  }

  /** The conversion gives back the expression a rendering came from. */
  lemma {:induction false} QueryConverts(env: Env, e: PlainCheck)
    ensures CheckOf(env, QueryOf(e)) == Ok(e)
  {
    match e
    case And(l, r) => QueryConverts(env, l); QueryConverts(env, r);
    case Or(l, r) => QueryConverts(env, l); QueryConverts(env, r);
    case Not(inner) => QueryConverts(env, inner);
    case Leaf(name, test) =>
      if test.RegexpMatch? {
        assert PatternText(env, LiteralScalar(Text(test.pattern))) == Some(test.pattern);
        assert RegexpCheck(env, LiteralScalar(Text(test.pattern)), Column(name), test.negated) == Ok(e);
      }
  }

  /** The parser on the tokens of an expression and nothing after them. */
  lemma TokensParse(word: string -> Token, e: PlainCheck)
    requires Named(ParserNaming(), word, e)
    ensures var ts := CheckTokens(word, e) + [EndOfInput];
            !Peek(ts, 0).EndOfInput? && ParseOr(ts, 0) == Got(QueryOf(e), |ts| - 1) && Peek(ts, |ts| - 1).EndOfInput?
  {
    var us := CheckTokens(word, e);
    var ts := us + [EndOfInput];
    assert ts[0..0 + |us|] == us;
    CheckParses(word, ts, 0, e);
    FirstToken(word, e);
    assert ts[0] == us[0];
  }

  lemma FirstToken(word: string -> Token, e: PlainCheck)
    requires Named(ParserNaming(), word, e)
    ensures CheckTokens(word, e) != [] && !CheckTokens(word, e)[0].EndOfInput?
  {
  }

  /** Parsing the text of a CHECK expression gives the expression back: every operator, nesting,
      negation, list and bound, negative and least integers, quotes in texts, and blobs. */
  lemma ParseRender(env: Env, e: PlainCheck)
    requires ReadableColumns(e)
    ensures ParseCheck(env, Render(e)) == Ok(e)
  {
    ReadableAreNamed(e);
    RenderedLexes(e);
    TokensParse(BareWord(), e);
    QueryConverts(env, e);
  }

  // ----- Exactly which words work as column names --------------------------

  lemma OtherKeywordsFail(ts: Tokens, word: Word)
    requires |ts| == 4 && ts[0] == Keyword(word) && ts[1] == Keyword(IsWord) && ts[2] == Keyword(NullWord) &&
             ts[3] == EndOfInput
    requires !word.SoftWord? && !word.ReplaceWord? && LiteralOf(ts[0]).None?
    ensures ParseOr(ts, 0) == Fail
  {
    OtherKeywordScalars(ts, word);
    hide ParseScalar, ParseOperand, LiteralOf;
    assert ParseNot(ts, 1) == Fail;
    assert ParseNot(ts, 0) == Fail;
  }

  /** No scalar starts at the keyword or at the IS behind it. */
  lemma OtherKeywordScalars(ts: Tokens, word: Word)
    requires |ts| == 4 && ts[0] == Keyword(word) && ts[1] == Keyword(IsWord) && ts[2] == Keyword(NullWord) &&
             ts[3] == EndOfInput
    requires !word.SoftWord? && !word.ReplaceWord? && LiteralOf(ts[0]).None?
    ensures ParseScalar(ts, 0) == Fail && ParseScalar(ts, 1) == Fail
  {
    hide SpecialName;
    assert ParseOperand(ts, 0) == Fail && ParseUnary(ts, 0) == Fail;
    assert ParseOperand(ts, 1) == Fail && ParseUnary(ts, 1) == Fail;
    BinaryFails(ts, 0, 4);
    BinaryFails(ts, 1, 4);
    ScalarFails(ts, 0);
    ScalarFails(ts, 1);
  }

  lemma ScalarFails(ts: Tokens, i: nat)
    requires i <= |ts| && ParseBinary(ts, i, 4) == Fail
    ensures ParseScalar(ts, i) == Fail
  {
    assert ParseCollate(ts, i) == Fail;
  }

  lemma {:induction false} BinaryFails(ts: Tokens, i: nat, level: nat)
    requires i <= |ts| && level <= 4 && (ParseUnary(ts, i) == Fail)
    ensures ParseBinary(ts, i, level) == Fail
  {
    if level > 0 { BinaryFails(ts, i, level - 1); }
  }

  lemma SpecialNameFails(ts: Tokens)
    requires |ts| == 4 && ts[0].Identifier? && SpecialName(ts[0].name)
    ensures ParseOr(ts, 0) == Fail
  {
    assert ParseOperand(ts, 0) == Fail;
    BinaryFails(ts, 0, 4);
    ScalarFails(ts, 0);
    hide ParseScalar, ParseOperand, SpecialName;
    assert ParseNot(ts, 0) == Fail;
  }

  lemma LiteralKeywordParses(ts: Tokens)
    requires |ts| == 4 && LiteralOf(ts[0]).Some? && ts[1] == Keyword(IsWord) && ts[2] == Keyword(NullWord) &&
             ts[3] == EndOfInput
    ensures ParseOr(ts, 0) == Got(IsNullScalar(Constant(LiteralOf(ts[0]).value), false), 3)
  {
    var c := Constant(LiteralOf(ts[0]).value);
    PlainOperand(ts, 0, ts[0]);
    OperandIsCollate(ts, 0, c, 1);
    assert TestTokens(ColumnTest.IsNull(false)) == [Keyword(IsWord), Keyword(NullWord)] == ts[1..1 + 2];
    IsNullParses(ts, c, 1, false);
    assert ParseScalar(ts, 0) == Got(IsTest(c, NULL_SCALAR, false), 3);
    ConditionFrom(ts, 0, IsTest(c, NULL_SCALAR, false), 3);
    ConditionAlone(ts, 0);
    AloneParses(ts, 0, IsNullScalar(c, false), 3);
  }

  /** The tokens of `name IS NULL`. */
  function IsNullTokens(t: Token): Tokens { [t, Keyword(IsWord), Keyword(NullWord), EndOfInput] }

  /** A token the parser takes for another name gives a test of that other column. */
  lemma OtherNameParses(env: Env, t: Token, name: string)
    requires ColumnToken(t, name)
    ensures ParseOr(IsNullTokens(t), 0) == Got(LeafQuery(name, ColumnTest.IsNull(false)), 3)
  {
    var e := Leaf(name, ColumnTest.IsNull(false));
    var word: string -> Token := _ => t;
    assert CheckTokens(word, e) + [EndOfInput] == IsNullTokens(t);
    TokensParse(word, e);
  }

  lemma BareWordKind(name: string)
    ensures WordToken(name).Keyword? || WordToken(name) == Identifier(name)
  {
  }

  /** Of all one-word names exactly the readable ones survive being written bare and parsed again. */
  lemma NameReadsBackIff(env: Env, name: string)
    requires WordShaped(name)
    ensures var e := Leaf(name, ColumnTest.IsNull(false)); ParseCheck(env, Render(e)) == Ok(e) <==> Readable(name)
  {
    hide WordToken, SpecialName, Lex, Render, ParseOr;
    var e, t := Leaf(name, ColumnTest.IsNull(false)), WordToken(name);
    RenderedLexes(e);
    BareWordKind(name);
    var ts := IsNullTokens(t);
    assert CheckTokens(BareWord(), e) + [EndOfInput] == ts;
    if Readable(name) {
      ParseRender(env, e);
    } else {
      match t
      case Identifier(_) => SpecialNameFails(ts);
      case Keyword(w) =>
        if w.SoftWord? {
          OtherNameParses(env, t, w.name);
        } else if w.ReplaceWord? {
          OtherNameParses(env, t, "replace");
        } else if LiteralOf(t).Some? {
          LiteralKeywordParses(ts);
        } else {
          OtherKeywordsFail(ts, w);
        }
    }
  }

  /** So is a column named `cast` or `current_date`, neither of which is a keyword. */
  lemma SpecialNameLost(env: Env, name: string)
    requires name == "cast" || name == "current_date"
    ensures WordToken(name) == Identifier(name)
    ensures var e := Leaf(name, ColumnTest.IsNull(false)); ParseCheck(env, Render(e)) != Ok(e)
  {
    hide ParseCheck, Render, WordToken, Upper, SpecialName;
    CastIsName();
    CurrentDateIsName();
    NameReadsBackIff(env, name);
  }

  lemma CastIsName()
    ensures WordShaped("cast") && WordToken("cast") == Identifier("cast") && SpecialName("cast")
  {
    assert Upper("cast") == "CAST";
    hide Upper, GrammarWord, SoftName, IsOtherWord;
    CastInNoList();
  }

  lemma CastInNoList()
    ensures GrammarWord("CAST").None? && SoftName("CAST").None? && !IsOtherWord("CAST")
  {
    var u := "CAST";
    assert u[0] != "LIKE"[0] && u[0] != "GLOB"[0] && u[0] != "FROM"[0] && u[0] != "TRUE"[0] && u[0] != "NULL"[0];
    assert u[3] != "CASE"[3];
    hide Upper, WordOf;
  }

  lemma CurrentDateIsName()
    ensures WordShaped("current_date") && WordToken("current_date") == Identifier("current_date")
    ensures SpecialName("current_date")
  {
    assert Upper("current_date") == "CURRENT_DATE";
    hide Upper;
    assert |"CURRENT_DATE"| == 12 && "CURRENT_DATE"[0] == 'C';
    assert GrammarWord("CURRENT_DATE").None?;
    assert SoftName("CURRENT_DATE").None?;
    hide GrammarWord, SoftName;
    assert !IsOtherWord("CURRENT_DATE");
  }

  /** A column named `in` is printed as it stands and does not read back. */
  lemma KeywordNameLost(env: Env)
    ensures var e := Leaf("in", ColumnTest.IsNull(false)); ParseCheck(env, Render(e)) != Ok(e)
  {
    assert Upper("in") == "IN";
    NameReadsBackIff(env, "in");
  }
}
