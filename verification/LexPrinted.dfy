/** Lexing a rendered CHECK expression gives back its tokens. */
module LexPrinted {
  import opened Common
  import opened Decimal
  import opened Values
  import opened CheckExprs
  import opened Lexing
  import opened CheckPrinter

  // ----- Pieces of text ----------------------------------------------------

  /** A text that ends a word or a number before it. */
  predicate Delimited(rest: string) { rest == "" || rest[0] == ' ' || rest[0] == ')' || rest[0] == ',' }

  function Prefixed(ts: seq<Token>, rest: Result<seq<Token>>): Result<seq<Token>> {
    if rest.Err? then rest else Ok(ts + rest.value)
  }

  ghost predicate LexesAt(s: string, ts: seq<Token>, rest: string) { Lex(s + rest) == Prefixed(ts, Lex(rest)) }

  /** In front of any delimiter, the text lexes as the tokens. */
  ghost predicate LexesAs(s: string, ts: seq<Token>) {
    forall rest :: Delimited(rest) ==> LexesAt(s, ts, rest)
  }

  /** In front of anything at all. */
  ghost predicate LexesAnywhere(s: string, ts: seq<Token>) { forall rest :: LexesAt(s, ts, rest) }

  lemma Reassociate(ta: seq<Token>, tb: seq<Token>, rest: Result<seq<Token>>)
    ensures Prefixed(ta, Prefixed(tb, rest)) == Prefixed(ta + tb, rest)
  {
    if rest.Ok? { assert ta + (tb + rest.value) == (ta + tb) + rest.value; }
  }

  /** Two pieces in a row, for any function that reads texts this way. */
  lemma TwoPieces(lex: string -> Result<seq<Token>>, a: string, ta: seq<Token>, b: string, tb: seq<Token>, rest: string)
    requires lex(a + (b + rest)) == Prefixed(ta, lex(b + rest)) && lex(b + rest) == Prefixed(tb, lex(rest))
    ensures lex((a + b) + rest) == Prefixed(ta + tb, lex(rest))
  {
    assert (a + b) + rest == a + (b + rest);
    Reassociate(ta, tb, lex(rest));
  }

  lemma JoinedAt(a: string, ta: seq<Token>, b: string, tb: seq<Token>, rest: string)
    requires LexesAt(a, ta, b + rest) && LexesAt(b, tb, rest)
    ensures LexesAt(a + b, ta + tb, rest)
  {
    TwoPieces(s => Lex(s), a, ta, b, tb, rest);
  }

  lemma Joined(a: string, ta: seq<Token>, b: string, tb: seq<Token>)
    requires LexesAs(a, ta) && LexesAs(b, tb) && b != "" && Delimited(b)
    ensures LexesAs(a + b, ta + tb)
  {
    forall rest | Delimited(rest) ensures LexesAt(a + b, ta + tb, rest) {
      assert (b + rest)[0] == b[0];
      JoinedAt(a, ta, b, tb, rest);
    }
  }

  lemma JoinedAnywhere(a: string, ta: seq<Token>, b: string, tb: seq<Token>)
    requires LexesAnywhere(a, ta) && LexesAs(b, tb)
    ensures LexesAs(a + b, ta + tb)
  {
    forall rest | Delimited(rest) ensures LexesAt(a + b, ta + tb, rest) {
      JoinedAt(a, ta, b, tb, rest);
    }
  }

  lemma TokenHead(s: string, rest: string, token: Token)
    requires HeadOf(s + rest) == Take(token, |s|)
    ensures LexesAt(s, [token], rest)
  {
    assert (s + rest)[|s|..] == rest;
  }

  lemma Space()
    ensures LexesAnywhere(" ", [])
  {
    forall rest ensures LexesAt(" ", [], rest) {
      assert (" " + rest)[1..] == rest;
      assert Lex(" " + rest) == Lex(rest);
      if Lex(rest).Ok? { assert [] + Lex(rest).value == Lex(rest).value; }
    }
  }

  /** Brackets and the comma need no delimiter. */
  lemma Bracket(c: char, token: Token)
    requires (c == '(' && token == LParen) || (c == ')' && token == RParen) || (c == ',' && token == Comma)
    ensures LexesAnywhere([c], [token])
  {
    forall rest ensures LexesAt([c], [token], rest) {
      var s := [c] + rest;
      assert s[0] == c;
      TokenHead([c], rest, token);
    }
  }

  lemma MinusBeforeDigit(digits: string, rest: string)
    requires digits != "" && IsDigit(digits[0])
    ensures LexesAt("-", [Minus], digits + rest)
  {
    var s := "-" + (digits + rest);
    assert s[0] == '-' && s[1] == digits[0];
    TokenHead("-", digits + rest, Minus);
  }

  lemma Negative(digits: string, token: Token)
    requires digits != "" && IsDigit(digits[0]) && LexesAs(digits, [token])
    ensures LexesAs("-" + digits, [Minus, token])
  {
    forall rest | Delimited(rest) ensures LexesAt("-" + digits, [Minus, token], rest) {
      MinusBeforeDigit(digits, rest);
      JoinedAt("-", [Minus], digits, [token], rest);
      assert [Minus] + [token] == [Minus, token];
    }
  }

  lemma Operator(op: CompareOp)
    ensures LexesAs(RenderOp(op), [OpToken(op)])
  {
    forall rest | Delimited(rest) ensures LexesAt(RenderOp(op), [OpToken(op)], rest) {
      var s := RenderOp(op) + rest;
      assert s[0] == RenderOp(op)[0];
      TokenHead(RenderOp(op), rest, OpToken(op));
    }
  }

  // ----- Words -------------------------------------------------------------

  /** A text the lexer takes for one word. */
  predicate WordShaped(s: string) { s != "" && StartsName(s[0]) && forall c :: c in s ==> ContinuesName(c) }

  lemma {:induction false} RunStops(s: string, rest: string, test: char -> bool)
    requires (forall c :: c in s ==> test(c)) && (rest != "" ==> !test(rest[0]))
    ensures Run(s + rest, test) == |s|
  {
    if s == "" {
      assert s + rest == rest;
    } else {
      assert (s + rest)[1..] == s[1..] + rest;
      RunStops(s[1..], rest, test);
    }
  }

  lemma WordRead(s: string, rest: string)
    requires WordShaped(s) && Delimited(rest)
    ensures HeadOf(s + rest) == Take(WordToken(s), |s|)
  {
    hide WordToken;
    var whole := s + rest;
    assert whole[0] == s[0];
    assert PeekChar(whole, 1).Some? ==> PeekChar(whole, 1).value in s || PeekChar(whole, 1).value == rest[0];
    RunStops(s, rest, c => ContinuesName(c));
    assert whole[..|s|] == s;
  }

  lemma WordLexes(s: string)
    requires WordShaped(s)
    ensures LexesAs(s, [WordToken(s)])
  {
    forall rest | Delimited(rest) ensures LexesAt(s, [WordToken(s)], rest) {
      WordRead(s, rest);
      TokenHead(s, rest, WordToken(s));
    }
  }

  // ----- Numbers -----------------------------------------------------------

  lemma {:induction false} NoUnderscores(s: string)
    requires AllDigits(s)
    ensures WithoutUnderscores(s) == s
  {
    if s != "" {
      assert s[0] in s;
      NoUnderscores(s[1..]);
    }
  }

  lemma EndsHere(s: string, n: nat)
    requires n <= |s| && (n < |s| ==> s[n] != '.' && s[n] != 'e' && s[n] != 'E')
    ensures FractionEnd(s, n) == n && ExponentEnd(s, n) == n
  {
  }

  lemma DigitsRead(digits: string, rest: string)
    requires digits != "" && AllDigits(digits) && Delimited(rest) && (digits[0] == '0' ==> digits == "0")
    ensures LexNumber(digits + rest) == Ok((NumberToken(NatValue(digits)), |digits|))
  {
    var s, n := digits + rest, |digits|;
    assert s[0] == digits[0] && IsDigit(s[0]);
    assert digits == "0" ==> PeekChar(s, 1) == PeekChar(rest, 0);
    RunStops(digits, rest, c => IsNumberChar(c));
    assert n < |s| ==> s[n] == rest[0];
    EndsHere(s, n);
    assert s[..n] == digits;
    NoUnderscores(digits);
  }

  lemma NumberRead(n: nat, rest: string)
    requires Delimited(rest)
    ensures LexNumber(NatText(n) + rest) == Ok((NumberToken(n), |NatText(n)|))
  {
    NatTextRoundTrip(n);
    DigitsRead(NatText(n), rest);
  }

  lemma NumberLexes(n: nat)
    ensures LexesAs(NatText(n), [NumberToken(n)])
  {
    forall rest | Delimited(rest) ensures LexesAt(NatText(n), [NumberToken(n)], rest) {
      var s := NatText(n) + rest;
      assert s[0] == NatText(n)[0] && IsDigit(s[0]);
      NumberRead(n, rest);
      TokenHead(NatText(n), rest, NumberToken(n));
    }
  }

  // ----- Quoted text -------------------------------------------------------

  lemma {:induction false} QuotedDoubled(text: string, rest: string)
    requires rest == "" || rest[0] != '\''
    ensures Quoted(Doubled(text) + "'" + rest, '\'', true) == Some((text, |Doubled(text)| + 1))
  {
    var s := Doubled(text) + "'" + rest;
    if text == "" {
      assert s[0] == '\'' && PeekChar(s, 1) == PeekChar(rest, 0);
    } else {
      QuotedDoubled(text[1..], rest);
      var tail := Doubled(text[1..]) + "'" + rest;
      if text[0] == '\'' {
        assert s == "''" + tail;
        assert s[2..] == tail;
      } else {
        assert s == [text[0]] + tail;
        assert s[1..] == tail;
      }
      assert [text[0]] + text[1..] == text;
    }
  }

  lemma TextLexes(text: string)
    ensures LexesAs(RenderText(text), [StringToken(text)])
  {
    forall rest | Delimited(rest) ensures LexesAt(RenderText(text), [StringToken(text)], rest) {
      var s := RenderText(text) + rest;
      assert s[0] == '\'' && s[1..] == Doubled(text) + "'" + rest;
      QuotedDoubled(text, rest);
      TokenHead(RenderText(text), rest, StringToken(text));
    }
  }

  lemma HexPair(b: byte, rest: string)
    requires HexBytes(rest).Some?
    ensures HexBytes([HexChar(b / 16), HexChar(b % 16)] + rest) == Some([b] + HexBytes(rest).value)
  {
    var s := [HexChar(b / 16), HexChar(b % 16)] + rest;
    assert s[0] == HexChar(b / 16) && s[1] == HexChar(b % 16) && s[2..] == rest;
  }

  lemma {:induction false} HexReadsBack(bytes: seq<byte>)
    ensures HexBytes(HexText(bytes)) == Some(bytes)
  {
    if bytes != [] {
      HexReadsBack(bytes[1..]);
      HexPair(bytes[0], HexText(bytes[1..]));
      assert [bytes[0]] + bytes[1..] == bytes;
    }
  }

  lemma {:induction false} NothingToDouble(s: string)
    requires '\'' !in s
    ensures Doubled(s) == s
  {
    if s != "" {
      assert s[0] in s;
      NothingToDouble(s[1..]);
    }
  }

  lemma {:induction false} HexHasNoQuote(bytes: seq<byte>)
    ensures '\'' !in HexText(bytes)
  {
    if bytes != [] {
      HexHasNoQuote(bytes[1..]);
      assert HexValue('\'').None?;
    }
  }

  lemma BlobRead(bytes: seq<byte>, rest: string)
    requires Delimited(rest)
    ensures HeadOf(RenderLiteral(Blob(bytes)) + rest) == Take(BlobToken(bytes), |RenderLiteral(Blob(bytes))|)
  {
    hide HexText, HexBytes, Doubled, Quoted;
    HexReadsBack(bytes);
    HexHasNoQuote(bytes);
    NothingToDouble(HexText(bytes));
    var s := RenderLiteral(Blob(bytes)) + rest;
    assert s[0] == 'X' && s[1] == '\'' && s[2..] == Doubled(HexText(bytes)) + "'" + rest;
    QuotedDoubled(HexText(bytes), rest);
    assert LexToken(s) == LexBlob(s);
  }

  lemma BlobLexes(bytes: seq<byte>)
    ensures LexesAs(RenderLiteral(Blob(bytes)), [BlobToken(bytes)])
  {
    var text := RenderLiteral(Blob(bytes));
    forall rest | Delimited(rest) ensures LexesAt(text, [BlobToken(bytes)], rest) {
      BlobRead(bytes, rest);
      TokenHead(text, rest, BlobToken(bytes));
    }
  }

  // ----- Literals and words ------------------------------------------------

  lemma GrammarToken(text: string, word: Word)
    requires GrammarWord(Upper(text)) == Some(word)
    ensures WordToken(text) == Keyword(word)
  {
  }

  lemma LiteralWords()
    ensures WordToken("NULL") == Keyword(NullWord) && WordToken("true") == Keyword(TrueWord) &&
            WordToken("false") == Keyword(FalseWord)
  {
    assert Upper("NULL") == "NULL" && Upper("true") == "TRUE" && Upper("false") == "FALSE";
    GrammarToken("NULL", NullWord);
    GrammarToken("true", TrueWord);
    GrammarToken("false", FalseWord);
  }

  lemma ConnectiveWords()
    ensures WordToken("AND") == Keyword(AndWord) && WordToken("OR") == Keyword(OrWord) &&
            WordToken("NOT") == Keyword(NotWord)
  {
    assert Upper("AND") == "AND" && Upper("OR") == "OR" && Upper("NOT") == "NOT";
    GrammarToken("AND", AndWord);
    GrammarToken("OR", OrWord);
    GrammarToken("NOT", NotWord);
  }

  lemma TestWords()
    ensures WordToken("IS") == Keyword(IsWord) && WordToken("IN") == Keyword(InWord) &&
            WordToken("GLOB") == Keyword(GlobWord)
    ensures WordToken("REGEXP") == Keyword(RegexpWord) && WordToken("BETWEEN") == Keyword(BetweenWord)
  {
    assert Upper("IS") == "IS" && Upper("IN") == "IN" && Upper("GLOB") == "GLOB";
    assert Upper("REGEXP") == "REGEXP" && Upper("BETWEEN") == "BETWEEN";
    GrammarToken("IS", IsWord);
    GrammarToken("IN", InWord);
    GrammarToken("GLOB", GlobWord);
    GrammarToken("REGEXP", RegexpWord);
    GrammarToken("BETWEEN", BetweenWord);
  }

  lemma IntegerLexes(i: i64)
    ensures LexesAs(RenderLiteral(Integer(i)), LiteralTokens(Integer(i))) && RenderLiteral(Integer(i)) != ""
  {
    hide LexesAs, NumberToken, NatText;
    if i < 0 {
      var n: nat := 0 - (i as int);
      NumberLexes(n);
      Negative(NatText(n), NumberToken(n));
    } else {
      NumberLexes(i);
    }
  }

  lemma WordLiteralLexes(v: Value)
    requires v.Null? || v.Boolean?
    ensures LexesAs(RenderLiteral(v), LiteralTokens(v)) && RenderLiteral(v) != ""
  {
    LiteralWords();
    var text := if v.Null? then "NULL" else if v.b then "true" else "false";
    assert RenderLiteral(v) == text && LiteralTokens(v) == [WordToken(text)];
    WordLexes(text);
  }

  lemma LiteralLexes(v: Value)
    ensures LexesAs(RenderLiteral(v), LiteralTokens(v)) && RenderLiteral(v) != ""
  {
    match v
    case Null => WordLiteralLexes(v);
    case Boolean(_) => WordLiteralLexes(v);
    case Integer(i) => IntegerLexes(i);
    case Blob(bytes) => BlobLexes(bytes);
    case Text(text) => TextLexes(text);
  }

  // ----- Phrases -----------------------------------------------------------

  lemma Spaced(b: string, tb: seq<Token>)
    requires LexesAs(b, tb)
    ensures LexesAs(" " + b, tb)
  {
    Space();
    JoinedAnywhere(" ", [], b, tb);
    assert [] + tb == tb;
  }

  lemma WordsLex(a: string, ta: seq<Token>, b: string, tb: seq<Token>)
    requires LexesAs(a, ta) && LexesAs(b, tb)
    ensures LexesAs(Words(a, b), ta + tb)
  {
    Spaced(b, tb);
    Joined(a, ta, " " + b, tb);
    assert a + (" " + b) == Words(a, b);
  }

  lemma KeywordWordsLex(text: string, word: Word, b: string, tb: seq<Token>)
    requires WordShaped(text) && WordToken(text) == Keyword(word) && LexesAs(b, tb)
    ensures LexesAs(Words(text, b), [Keyword(word)] + tb)
  {
    WordLexes(text);
    WordsLex(text, [Keyword(word)], b, tb);
  }

  lemma ConnectiveShapes()
    ensures WordShaped("AND") && WordShaped("OR") && WordShaped("NOT")
  {
  }

  lemma NegatedLexes(negated: bool, phrase: string, ts: seq<Token>)
    requires LexesAs(phrase, ts)
    ensures LexesAs(Negated(negated, phrase), NegatedTokens(negated, ts))
    ensures Negated(negated, phrase) != "" && Negated(negated, phrase)[0] == ' '
  {
    if negated {
      ConnectiveWords();
      ConnectiveShapes();
      KeywordWordsLex("NOT", NotWord, phrase, ts);
      Spaced(Words("NOT", phrase), [Keyword(NotWord)] + ts);
    } else {
      Spaced(phrase, ts);
    }
  }

  lemma ClosingBracket()
    ensures LexesAs(")", [RParen])
  {
    Bracket(')', RParen);
  }

  lemma ListStep(v: Value, rest: string, ts: seq<Token>)
    requires LexesAs(rest, ts)
    ensures LexesAs(RenderLiteral(v) + ("," + (" " + rest)), LiteralTokens(v) + ([Comma] + ts))
  {
    LiteralLexes(v);
    Spaced(rest, ts);
    Bracket(',', Comma);
    JoinedAnywhere([','], [Comma], " " + rest, ts);
    Joined(RenderLiteral(v), LiteralTokens(v), "," + (" " + rest), [Comma] + ts);
  }

  lemma Append3<T>(a: seq<T>, b: seq<T>, c: seq<T>, d: seq<T>)
    ensures a + (b + (c + d)) == (a + (b + c)) + d
  {
  }

  /** A comma-separated list up to its closing bracket. */
  lemma {:induction false} ListLexes(values: seq<Value>)
    ensures LexesAs(RenderList(values) + ")", ListTokens(values) + [RParen])
  {
    if values == [] {
      ClosingBracket();
      assert "" + ")" == ")" && [] + [RParen] == [RParen];
    } else if |values| == 1 {
      ClosingBracket();
      LiteralLexes(values[0]);
      Joined(RenderLiteral(values[0]), LiteralTokens(values[0]), ")", [RParen]);
    } else {
      var list, ts := RenderList(values[1..]), ListTokens(values[1..]);
      ListLexes(values[1..]);
      ListStep(values[0], list + ")", ts + [RParen]);
      assert " " + (list + ")") == (" " + list) + ")";
      Append3(RenderLiteral(values[0]), ",", " " + list, ")");
      Append3(LiteralTokens(values[0]), [Comma], ts, [RParen]);
    }
  }

  /** A phrase in brackets, its closing bracket known to end it. */
  lemma OpenBracket(s: string, ts: seq<Token>)
    requires LexesAs(s + ")", ts + [RParen])
    ensures LexesAs(InBrackets(s), BracketTokens(ts))
  {
    Bracket('(', LParen);
    JoinedAnywhere(['('], [LParen], s + ")", ts + [RParen]);
    assert ['('] + (s + ")") == InBrackets(s);
  }

  lemma Bracketed(s: string, ts: seq<Token>)
    requires LexesAs(s, ts)
    ensures LexesAs(InBrackets(s), BracketTokens(ts))
  {
    ClosingBracket();
    Joined(s, ts, ")", [RParen]);
    OpenBracket(s, ts);
  }

  // ----- Tests and expressions ---------------------------------------------

  lemma TestShapes()
    ensures WordShaped("IS") && WordShaped("IN") && WordShaped("GLOB") && WordShaped("REGEXP") &&
            WordShaped("BETWEEN") && WordShaped("NULL")
  {
  }

  lemma CompareLexes(op: CompareOp, v: Value)
    ensures LexesAs(RenderTest(ColumnTest.Compare(op, v)), TestTokens(ColumnTest.Compare(op, v)))
  {
    Operator(op);
    LiteralLexes(v);
    WordsLex(RenderOp(op), [OpToken(op)], RenderLiteral(v), LiteralTokens(v));
    Spaced(Words(RenderOp(op), RenderLiteral(v)), [OpToken(op)] + LiteralTokens(v));
  }

  lemma IsNullLexes(negated: bool)
    ensures LexesAs(RenderTest(ColumnTest.IsNull(negated)), TestTokens(ColumnTest.IsNull(negated)))
  {
    TestWords();
    TestShapes();
    LiteralWords();
    WordLexes("IS");
    WordLexes("NULL");
    NegatedLexes(negated, "NULL", [Keyword(NullWord)]);
    var tail, ts := Negated(negated, "NULL"), NegatedTokens(negated, [Keyword(NullWord)]);
    Joined("IS", [Keyword(IsWord)], tail, ts);
    Spaced("IS" + tail, [Keyword(IsWord)] + ts);
  }

  lemma NegatedKeywordLexes(keyword: string, word: Word, rest: string, ts: seq<Token>, negated: bool)
    requires WordShaped(keyword) && WordToken(keyword) == Keyword(word) && LexesAs(rest, ts)
    ensures LexesAs(Negated(negated, Words(keyword, rest)), NegatedTokens(negated, [Keyword(word)] + ts))
  {
    KeywordWordsLex(keyword, word, rest, ts);
    NegatedLexes(negated, Words(keyword, rest), [Keyword(word)] + ts);
  }

  lemma BoundsLex(low: Value, high: Value)
    ensures LexesAs(Words(RenderLiteral(low), Words("AND", RenderLiteral(high))),
            LiteralTokens(low) + ([Keyword(AndWord)] + LiteralTokens(high)))
  {
    ConnectiveWords();
    ConnectiveShapes();
    LiteralLexes(low);
    LiteralLexes(high);
    KeywordWordsLex("AND", AndWord, RenderLiteral(high), LiteralTokens(high));
    WordsLex(RenderLiteral(low), LiteralTokens(low), Words("AND", RenderLiteral(high)),
        [Keyword(AndWord)] + LiteralTokens(high));
  }

  lemma TestStartsWithSpace(test: PlainTest)
    ensures RenderTest(test) != "" && RenderTest(test)[0] == ' '
  {
  }

  lemma TestLexes(test: PlainTest)
    ensures LexesAs(RenderTest(test), TestTokens(test))
  {
    match test
    case Compare(op, v) => CompareLexes(op, v);
    case IsNull(negated) => IsNullLexes(negated);
    case GlobMatch(pattern, negated) =>
      TestWords();
      TestShapes();
      TextLexes(pattern);
      NegatedKeywordLexes("GLOB", GlobWord, RenderText(pattern), [StringToken(pattern)], negated);
    case RegexpMatch(pattern, negated) =>
      TestWords();
      TestShapes();
      TextLexes(pattern);
      NegatedKeywordLexes("REGEXP", RegexpWord, RenderText(pattern), [StringToken(pattern)], negated);
    case InList(values, negated) =>
      TestWords();
      TestShapes();
      ListLexes(values);
      OpenBracket(RenderList(values), ListTokens(values));
      NegatedKeywordLexes("IN", InWord, InBrackets(RenderList(values)), BracketTokens(ListTokens(values)), negated);
    case Between(low, high, negated) =>
      TestWords();
      TestShapes();
      BoundsLex(low, high);
      NegatedKeywordLexes("BETWEEN", BetweenWord, Words(RenderLiteral(low), Words("AND", RenderLiteral(high))),
                          LiteralTokens(low) + ([Keyword(AndWord)] + LiteralTokens(high)), negated);
  }

  ghost predicate ColumnsWordShaped(e: PlainCheck) {
    match e
    case Leaf(column, _) => WordShaped(column)
    case And(l, r) => ColumnsWordShaped(l) && ColumnsWordShaped(r)
    case Or(l, r) => ColumnsWordShaped(l) && ColumnsWordShaped(r)
    case Not(inner) => ColumnsWordShaped(inner)
  }

  lemma ConnectedLexes(l: string, tl: seq<Token>, keyword: string, word: Word, r: string, tr: seq<Token>)
    requires LexesAs(l, tl) && LexesAs(r, tr) && WordShaped(keyword) && WordToken(keyword) == Keyword(word)
    ensures LexesAs(Words(InBrackets(l), Words(keyword, InBrackets(r))),
            BracketTokens(tl) + ([Keyword(word)] + BracketTokens(tr)))
  {
    Bracketed(l, tl);
    Bracketed(r, tr);
    KeywordWordsLex(keyword, word, InBrackets(r), BracketTokens(tr));
    WordsLex(InBrackets(l), BracketTokens(tl), Words(keyword, InBrackets(r)), [Keyword(word)] + BracketTokens(tr));
  }

  lemma {:induction false} CheckLexes(e: PlainCheck)
    requires ColumnsWordShaped(e)
    ensures LexesAs(Render(e), CheckTokens(BareWord(), e))
  {
    ConnectiveWords();
    ConnectiveShapes();
    match e
    case Leaf(column, test) =>
      WordLexes(column);
      TestLexes(test);
      TestStartsWithSpace(test);
      Joined(column, [WordToken(column)], RenderTest(test), TestTokens(test));
    case And(l, r) =>
      CheckLexes(l);
      CheckLexes(r);
      ConnectedLexes(Render(l), CheckTokens(BareWord(), l), "AND", AndWord, Render(r), CheckTokens(BareWord(), r));
    case Or(l, r) =>
      CheckLexes(l);
      CheckLexes(r);
      ConnectedLexes(Render(l), CheckTokens(BareWord(), l), "OR", OrWord, Render(r), CheckTokens(BareWord(), r));
    case Not(inner) =>
      CheckLexes(inner);
      Bracketed(Render(inner), CheckTokens(BareWord(), inner));
      KeywordWordsLex("NOT", NotWord, InBrackets(Render(inner)), BracketTokens(CheckTokens(BareWord(), inner)));
  }

  /** The whole text of a rendered CHECK expression lexes as its tokens and the end of input. */
  lemma RenderedLexes(e: PlainCheck)
    requires ColumnsWordShaped(e)
    ensures Lex(Render(e)) == Ok(CheckTokens(BareWord(), e) + [EndOfInput])
  {
    CheckLexes(e);
    assert LexesAt(Render(e), CheckTokens(BareWord(), e), "");
    assert Render(e) + "" == Render(e);
  }
}
