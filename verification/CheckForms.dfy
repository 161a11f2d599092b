/** Forms of conditions the parser reads besides those the printer writes. */
module CheckForms {
  import opened Common
  import opened Values
  import opened CheckExprs
  import opened Lexing
  import opened CheckPrinter
  import opened CheckParsing
  import opened CheckRoundTrip
  import opened CheckMeanings
  import opened Comparisons

  // ----- A literal on the left ---------------------------------------------

  /** A literal compared with a column is the column's test that says of every cell what the comparison,
      read from left to right, says. */
  lemma ReversedMeans(env: Env, c: string, v: Value, op: CompareOp, cell: Value)
    ensures var r := CheckOf(env, ComparesScalar(Constant(Plain(v)), op, Column(c)));
            r.Ok? && r.value.Leaf? && r.value.column == c &&
            EvaluateTest(env, r.value.test, cell) ==
            Ok(if v.Null? || cell.Null? then None else Some(Alike(v, cell) && Related(v, op, cell)))
  {
    CompareTestMeans(env, cell, ReversedOp(op), v);
    if Alike(v, cell) { OneOfThree(v, cell); }
  }

  lemma ReversedReads(ts: Tokens, i: nat, v: Value, op: CompareOp, t: Token, name: string)
    requires At(ts, i, LiteralTokens(v) + ([OpToken(op)] + [t])) && ColumnToken(t, name)
    requires Follows(Peek(ts, i + |LiteralTokens(v)| + 2))
    ensures i <= |ts| && ParseNot(ts, i) ==
            Got(ComparesScalar(LiteralScalar(v), op, Column(name)), i + |LiteralTokens(v)| + 2)
  {
    hide At, LiteralScalar, LiteralTokens, OpToken, ParseScalar, Suffixes, ParseCollate, ParseUnary;
    var k := i + |LiteralTokens(v)|;
    AtSplit(ts, i, LiteralTokens(v), [OpToken(op)] + [t]);
    AtHead(ts, k, OpToken(op), [t]);
    AtOnly(ts, k + 1, t);
    StopsEndsAll(Peek(ts, k + 2));
    OperatorFollows(op);
    LiteralOperand(ts, i, v);
    OperandIsCollate(ts, i, LiteralScalar(v), k);
    ColumnParses(ts, k + 1, name);
    ColumnStarts(t, name);
    ComparedReads(ts, i, LiteralScalar(v), k, op, Column(name), k + 2);
    FirstOfLiteral(v);
    AtFirst(ts, i, LiteralTokens(v));
    ConditionFrom(ts, i, CompareTest(LiteralScalar(v), op, Column(name)), k + 2);
    ConditionAlone(ts, i);
  }

  lemma OperatorFollows(op: CompareOp)
    ensures NoOperator(OpToken(op)) && !IsPatternWord(OpToken(op)) && CompareOpOf(OpToken(op)) == Some(op)
    ensures var t := OpToken(op); !SaysIs(t) && !SaysIsNull(t) && !SaysNotNull(t) && !SaysNot(t) && !SaysIn(t)
  {
  }

  lemma FirstOfLiteral(v: Value)
    ensures LiteralTokens(v) != []
    ensures var t := LiteralTokens(v)[0]; StartsScalar(t) && !t.LParen? && !SaysNot(t) && !SaysExists(t)
  {
  }

  lemma ComparedReads(ts: Tokens, i: nat, e: Scalar, k: nat, op: CompareOp, f: Scalar, m: nat)
    requires i <= |ts| && k < |ts| && ParseCollate(ts, i) == Got(e, k) && Peek(ts, k) == OpToken(op)
    requires !Peek(ts, k + 1).LParen? && ParseCollate(ts, k + 1) == Got(f, m)
    ensures ParseScalar(ts, i) == Got(CompareTest(e, op, f), m)
  {
    OperatorFollows(op);
    hide ParseCollate;
    assert CompareSuffix(ts, e, k) == Got(CompareTest(e, op, f), m);
    SuffixChain(ts, e, k, e, k, e, k, e, k);
  }

  // ----- NULL and IS ---------------------------------------------------------

  /** `c ISNULL`, `c NOTNULL` and `c NOT NULL`. */
  lemma NullFormsRead(ts: Tokens, i: nat, t: Token, name: string, words: seq<Token>, negated: bool)
    requires ColumnToken(t, name) && At(ts, i, [t] + words) && Follows(Peek(ts, i + 1 + |words|))
    requires (words == [Keyword(IsNullWord)] && !negated) || (words == [Keyword(NotNullWord)] && negated) ||
             (words == [Keyword(NotWord)] + [Keyword(NullWord)] && negated)
    ensures i <= |ts| && ParseNot(ts, i) == Got(IsNulls(name, negated), i + 1 + |words|)
  {
    var e, end := IsTest(Column(name), NULL_SCALAR, negated), i + 1 + |words|;
    AtHead(ts, i, t, words);
    if |words| == 2 {
      AtHead(ts, i + 1, Keyword(NotWord), [Keyword(NullWord)]);
      AtOnly(ts, i + 2, Keyword(NullWord));
    } else {
      AtFirst(ts, i + 1, words);
    }
    StopsEndsAll(Peek(ts, end));
    ColumnParses(ts, i, name);
    ColumnStarts(t, name);
    NoCompare(ts, e, end);
    assert IsSuffix(ts, Column(name), i + 1) == Got(e, end);
    SuffixChain(ts, Column(name), i + 1, e, end, e, end, e, end);
    ConditionFrom(ts, i, e, end);
    ConditionAlone(ts, i);
  }

  /** The words of IS and of its negations: IS NOT and IS DISTINCT FROM say the opposite of IS, and IS NOT
      DISTINCT FROM says the same. */
  predicate IsWords(words: seq<Token>, negated: bool) {
    var not, distinct := Keyword(NotWord), [Keyword(DistinctWord)] + [Keyword(FromWord)];
    if negated then words == [not] || words == distinct else words == [] || words == [not] + distinct
  }

  lemma IsFormsRead(ts: Tokens, i: nat, t: Token, name: string, words: seq<Token>, negated: bool, v: Value)
    requires ColumnToken(t, name) && IsWords(words, negated) && !v.Null? && !v.Boolean?
    requires At(ts, i, [t] + ([Keyword(IsWord)] + (words + LiteralTokens(v))))
    requires Follows(Peek(ts, i + 2 + |words| + |LiteralTokens(v)|))
    ensures i <= |ts| && ParseNot(ts, i) ==
            Got(Is(Column(name), LiteralScalar(v), negated), i + 2 + |words| + |LiteralTokens(v)|)
  {
    hide At, LiteralScalar, LiteralTokens, ParseScalar, Suffixes, IsSuffix, InSuffix, PatternSuffix, CompareSuffix;
    var k := i + 2 + |words|;
    var e, end := IsTest(Column(name), LiteralScalar(v), negated), k + |LiteralTokens(v)|;
    AtHead(ts, i, t, [Keyword(IsWord)] + (words + LiteralTokens(v)));
    AtHead(ts, i + 1, Keyword(IsWord), words + LiteralTokens(v));
    AtSplit(ts, i + 2, words, LiteralTokens(v));
    StopsEndsAll(Peek(ts, end));
    ColumnParses(ts, i, name);
    ColumnStarts(t, name);
    IsSuffixReads(ts, Column(name), i + 1, words, negated, v);
    NoCompare(ts, e, end);
    SuffixChain(ts, Column(name), i + 1, e, end, e, end, e, end);
    ScalarFrom(ts, i, Column(name), i + 1, e, end);
    ConditionFrom(ts, i, e, end);
    NotNullConstant(v);
    ConditionAlone(ts, i);
  }

  lemma ScalarFrom(ts: Tokens, i: nat, e: Scalar, k: nat, f: Scalar, end: nat)
    requires i <= |ts| && k <= |ts| && ParseCollate(ts, i) == Got(e, k) && Suffixes(ts, e, k) == Got(f, end)
    ensures ParseScalar(ts, i) == Got(f, end)
  {
  }

  lemma NotNullConstant(v: Value)
    ensures IsNullConstant(LiteralScalar(v)) <==> v.Null?
  {
  }

  lemma IsSuffixReads(ts: Tokens, c: Scalar, i: nat, words: seq<Token>, negated: bool, v: Value)
    requires i < |ts| && Peek(ts, i) == Keyword(IsWord) && IsWords(words, negated) && !v.Null? && !v.Boolean?
    requires At(ts, i + 1, words) && At(ts, i + 1 + |words|, LiteralTokens(v))
    requires Stops(Peek(ts, i + 1 + |words| + |LiteralTokens(v)|))
    ensures IsSuffix(ts, c, i) ==
            Got(IsTest(c, LiteralScalar(v), negated), i + 1 + |words| + |LiteralTokens(v)|)
  {
    hide ParseCollate, LiteralScalar;
    var k := i + 1 + |words|;
    LiteralCollate(ts, k, v);
    AtFirst(ts, k, LiteralTokens(v));
    var u := LiteralTokens(v)[0];
    assert !SaysDistinct(u) && !SaysTrue(u) && !SaysFalse(u) && !SaysNull(u) && !SaysNot(u);
    if words != [] { AtFirst(ts, i + 1, words); }
    if |words| >= 2 { assert ts[i + 1..i + 1 + |words|][1] == words[1]; }
    if |words| >= 3 { assert ts[i + 1..i + 1 + |words|][2] == words[2]; }
  }

  // ----- LIKE ------------------------------------------------------------------

  /** A text in front of the end of the condition or of ESCAPE. */
  lemma TextReads(ts: Tokens, i: nat, text: string)
    requires i < |ts| && Peek(ts, i) == StringToken(text)
    requires Stops(Peek(ts, i + 1)) || SaysEscape(Peek(ts, i + 1))
    ensures ParseScalar(ts, i) == Got(LiteralScalar(Text(text)), i + 1)
  {
    var e := LiteralScalar(Text(text));
    PlainOperand(ts, i, StringToken(text));
    OperandIsCollate(ts, i, e, i + 1);
    assert CompareSuffix(ts, e, i + 1) == Got(e, i + 1);
    SuffixChain(ts, e, i + 1, e, i + 1, e, i + 1, e, i + 1);
  }

  function EscapeTokens(escape: Option<string>): seq<Token> {
    if escape.None? then [] else [Keyword(EscapeWord)] + [StringToken(escape.value)]
  }

  function EscapeScalar(escape: Option<string>): Option<Scalar> {
    if escape.None? then None else Some(LiteralScalar(Text(escape.value)))
  }

  lemma LikeSuffixReads(ts: Tokens, c: Scalar, i: nat, pattern: string, escape: Option<string>, negated: bool)
    requires At(ts, i, NegatedTokens(negated, [Keyword(LikeWord)] + ([StringToken(pattern)] + EscapeTokens(escape))))
    requires Stops(Peek(ts, i + 2 + |EscapeTokens(escape)| + (if negated then 1 else 0)))
    ensures IsSuffix(ts, c, i) == Got(c, i) && InSuffix(ts, c, i) == Got(c, i)
    ensures PatternSuffix(ts, c, i) ==
            Got(LikeTest(c, LiteralScalar(Text(pattern)), EscapeScalar(escape), negated),
                i + 2 + |EscapeTokens(escape)| + (if negated then 1 else 0))
  {
    hide At, LiteralScalar, ParseScalar, BetweenBounds, NegatedTokens, SpecialName, Upper, ParseCollate;
    NegatedAt(ts, i, negated, LikeWord, [StringToken(pattern)] + EscapeTokens(escape));
    PatternAndEscape(ts, if negated then i + 2 else i + 1, pattern, escape);
  }

  lemma PatternAndEscape(ts: Tokens, k: nat, pattern: string, escape: Option<string>)
    requires At(ts, k, [StringToken(pattern)] + EscapeTokens(escape))
    requires Stops(Peek(ts, k + 1 + |EscapeTokens(escape)|))
    ensures k <= |ts| && ParseScalar(ts, k) == Got(LiteralScalar(Text(pattern)), k + 1)
    ensures SaysEscape(Peek(ts, k + 1)) <==> escape.Some?
    ensures escape.Some? ==>
            k + 2 <= |ts| && ParseScalar(ts, k + 2) == Got(LiteralScalar(Text(escape.value)), k + 3)
  {
    hide At, LiteralScalar, ParseScalar;
    AtHead(ts, k, StringToken(pattern), EscapeTokens(escape));
    if escape.Some? {
      AtHead(ts, k + 1, Keyword(EscapeWord), [StringToken(escape.value)]);
      AtOnly(ts, k + 2, StringToken(escape.value));
      TextReads(ts, k + 2, escape.value);
    }
    TextReads(ts, k, pattern);
  }

  lemma LikeReads(ts: Tokens, i: nat, t: Token, name: string, pattern: string, escape: Option<string>, negated: bool)
    requires ColumnToken(t, name)
    requires var words := NegatedTokens(negated, [Keyword(LikeWord)] + ([StringToken(pattern)] + EscapeTokens(escape)));
             At(ts, i, [t] + words) && Follows(Peek(ts, i + 1 + |words|))
    ensures i <= |ts| && ParseNot(ts, i) ==
            Got(Likes(Column(name), LiteralScalar(Text(pattern)), EscapeScalar(escape), negated),
                i + 3 + |EscapeTokens(escape)| + (if negated then 1 else 0))
  {
    hide At, LiteralScalar, Suffixes, PatternSuffix, IsSuffix, InSuffix, ParseScalar;
    var words := NegatedTokens(negated, [Keyword(LikeWord)] + ([StringToken(pattern)] + EscapeTokens(escape)));
    var e := LikeTest(Column(name), LiteralScalar(Text(pattern)), EscapeScalar(escape), negated);
    var end := i + 1 + |words|;
    AtHead(ts, i, t, words);
    AtFirst(ts, i + 1, words);
    StopsEndsAll(Peek(ts, end));
    ColumnParses(ts, i, name);
    ColumnStarts(t, name);
    LikeSuffixReads(ts, Column(name), i + 1, pattern, escape, negated);
    NoCompare(ts, e, end);
    SuffixChain(ts, Column(name), i + 1, Column(name), i + 1, Column(name), i + 1, e, end);
    ScalarFrom(ts, i, Column(name), i + 1, e, end);
    ConditionFrom(ts, i, e, end);
    ConditionAlone(ts, i);
  }
}
