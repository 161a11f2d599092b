/** How CHECK expressions and the signs in them are spelled, character by character. */
module CheckSpelling {
  import opened Common
  import opened Decimal
  import opened Values
  import opened CheckExprs
  import opened Lexing
  import opened CheckPrinter
  import opened LexPrinted

  lemma NumeralsSpelled()
    ensures NatText(0) == "0" && NatText(1907) == "1907" && IntText(-25) == "-25"
  {
    assert NatText(1907) == NatText(190) + "7" && NatText(190) == NatText(19) + "0" && NatText(19) == "19";
  }

  lemma BlobSpelled()
    ensures HexText([10, 255]) == "0AFF"
  {
    assert [10, 255][1..] == [255] && [255][1..] == [];
    assert HexText([255]) == "FF" + HexText([]);
  }

  lemma QuoteSpelled()
    ensures Doubled("it's") == "it''s"
  {
    var s := "it's";
    assert s[1..] == "t's" && s[1..][1..] == "'s" && s[1..][1..][1..] == "s";
    assert Doubled("s") == "s" && Doubled("'s") == "''s" && Doubled("t's") == "t''s";
  }

  lemma LiteralsSpelled()
    ensures RenderLiteral(Null) == "NULL" && RenderLiteral(Boolean(true)) == "true"
    ensures RenderLiteral(Boolean(false)) == "false" && RenderLiteral(Integer(-25)) == "-25"
    ensures RenderLiteral(Blob([10, 255])) == "X'0AFF'" && RenderLiteral(Text("it's")) == "'it''s'"
  {
    NumeralsSpelled();
    BlobSpelled();
    QuoteSpelled();
  }


  lemma Flat(c: string, word: string, x: string)
    ensures c + (" " + Words(word, x)) == c + (" " + word + " ") + x
  {
  }

  lemma FlatNegated(c: string, word: string, x: string)
    ensures c + (" " + Words("NOT", Words(word, x))) == c + (" NOT " + word + " ") + x
  {
    Flat(c, "NOT", Words(word, x));
    var not := " " + "NOT" + " ";
    assert not == " NOT ";
    assert not + Words(word, x) == (not + word + " ") + x;
    assert (c + not) + Words(word, x) == c + (not + Words(word, x));
    assert c + ((not + word + " ") + x) == c + (not + word + " ") + x;
  }

  /** A test that may be negated, in one piece. */
  lemma PhraseSpelled(c: string, word: string, x: string, negated: bool)
    ensures c + Negated(negated, Words(word, x)) == c + ((if negated then " NOT " else " ") + word + " ") + x
  {
    if negated { FlatNegated(c, word, x); } else { Flat(c, word, x); }
  }

  lemma ComparisonsSpelled(c: string, v: Value)
    ensures Render(Leaf(c, Compare(Eq, v))) == c + " = " + RenderLiteral(v)
    ensures Render(Leaf(c, Compare(Ne, v))) == c + " != " + RenderLiteral(v)
    ensures Render(Leaf(c, Compare(Lt, v))) == c + " < " + RenderLiteral(v)
    ensures Render(Leaf(c, Compare(Lte, v))) == c + " <= " + RenderLiteral(v)
    ensures Render(Leaf(c, Compare(Gt, v))) == c + " > " + RenderLiteral(v)
    ensures Render(Leaf(c, Compare(Gte, v))) == c + " >= " + RenderLiteral(v)
  {
    hide RenderLiteral;
    forall op ensures Render(Leaf(c, Compare(op, v))) == c + (" " + RenderOp(op) + " ") + RenderLiteral(v) {
      Flat(c, RenderOp(op), RenderLiteral(v));
    }
  }

  lemma NullTestsSpelled(c: string)
    ensures Render(Leaf(c, ColumnTest.IsNull(false))) == c + " IS NULL"
    ensures Render(Leaf(c, ColumnTest.IsNull(true))) == c + " IS NOT NULL"
  {
    assert RenderTest(ColumnTest.IsNull(false)) == " IS NULL";
    assert RenderTest(ColumnTest.IsNull(true)) == " IS NOT NULL";
  }

  lemma PatternsSpelled(c: string, pattern: string, negated: bool)
    ensures Render(Leaf(c, GlobMatch(pattern, negated))) ==
            c + (if negated then " NOT GLOB " else " GLOB ") + RenderText(pattern)
    ensures Render(Leaf(c, RegexpMatch(pattern, negated))) ==
            c + (if negated then " NOT REGEXP " else " REGEXP ") + RenderText(pattern)
  {
    hide RenderText;
    PhraseSpelled(c, "GLOB", RenderText(pattern), negated);
    PhraseSpelled(c, "REGEXP", RenderText(pattern), negated);
    assert " NOT " + "GLOB" + " " == " NOT GLOB " && " " + "GLOB" + " " == " GLOB ";
    assert " NOT " + "REGEXP" + " " == " NOT REGEXP " && " " + "REGEXP" + " " == " REGEXP ";
  }

  lemma ListsSpelled(c: string, v: Value, w: Value, negated: bool)
    ensures Render(Leaf(c, ColumnTest.InList([v, w], negated))) ==
            c + (if negated then " NOT IN " else " IN ") + ("(" + (RenderLiteral(v) + (", " + RenderLiteral(w)) + ")"))
    ensures Render(Leaf(c, ColumnTest.InList([v], negated))) ==
            c + (if negated then " NOT IN " else " IN ") + ("(" + RenderLiteral(v) + ")")
    ensures Render(Leaf(c, ColumnTest.InList([], negated))) == c + (if negated then " NOT IN " else " IN ") + "()"
  {
    hide RenderLiteral;
    var a, b := RenderLiteral(v), RenderLiteral(w);
    assert [v, w][1..] == [w];
    assert RenderList([v, w]) == a + (", " + b);
    assert "," + (" " + b) == ", " + b;
    PhraseSpelled(c, "IN", InBrackets(a + (", " + b)), negated);
    PhraseSpelled(c, "IN", InBrackets(a), negated);
    PhraseSpelled(c, "IN", InBrackets(""), negated);
    assert " NOT " + "IN" + " " == " NOT IN " && " " + "IN" + " " == " IN ";
    assert InBrackets(a + (", " + b)) == "(" + ((a + (", " + b)) + ")") && InBrackets("") == "()";
  }

  lemma BetweenSpelled(c: string, v: Value, w: Value, negated: bool)
    ensures Render(Leaf(c, ColumnTest.Between(v, w, negated))) ==
            c + (if negated then " NOT BETWEEN " else " BETWEEN ") + (RenderLiteral(v) + " AND " + RenderLiteral(w))
  {
    hide RenderLiteral;
    var a, b := RenderLiteral(v), RenderLiteral(w);
    assert Words(a, Words("AND", b)) == a + " AND " + b;
    PhraseSpelled(c, "BETWEEN", a + " AND " + b, negated);
    assert " NOT " + "BETWEEN" + " " == " NOT BETWEEN " && " " + "BETWEEN" + " " == " BETWEEN ";
  }

  lemma ConnectivesSpelled(l: PlainCheck, r: PlainCheck)
    ensures Render(CheckExpr.And(l, r)) == "(" + Render(l) + ") AND (" + (Render(r) + ")")
    ensures Render(CheckExpr.Or(l, r)) == "(" + Render(l) + ") OR (" + (Render(r) + ")")
    ensures Render(CheckExpr.Not(l)) == "NOT (" + (Render(l) + ")")
  {
    BracketsSpelled(Render(l), "AND", Render(r));
    BracketsSpelled(Render(l), "OR", Render(r));
    assert ") " + "AND" + " (" == ") AND (" && ") " + "OR" + " (" == ") OR (";
  }

  lemma BracketsSpelled(a: string, word: string, b: string)
    ensures Words(InBrackets(a), Words(word, InBrackets(b))) == "(" + a + (") " + word + " (") + (b + ")")
    ensures Words("NOT", InBrackets(a)) == "NOT (" + (a + ")")
  {
  }

  /** The signs the grammar knows, those of one character and the longer ones. */
  function ShortSigns(): map<string, Token> {
    map["+" := Plus, "-" := Minus, "*" := Star, "/" := Slash, "%" := Percent, "&" := Ampersand, "|" := Pipe,
        "~" := Tilde, "=" := EqSign, "<" := LtSign, ">" := GtSign, "(" := LParen, ")" := RParen, "," := Comma,
        "." := Dot, ";" := Semicolon]
  }

  function LongSigns(): map<string, Token> {
    map["<<" := ShiftLeft, ">>" := ShiftRight, "||" := PipePipe, "->" := Arrow, "->>" := ArrowText,
        "==" := EqSign, "!=" := NeSign, "<>" := NeSign, "<=" := LteSign, ">=" := GteSign]
  }

  lemma ShortHead(sign: string, rest: string)
    requires sign in ShortSigns() && Delimited(rest)
    ensures HeadOf(sign + rest) == Take(ShortSigns()[sign], |sign|)
  {
    hide Quoted, LexNumber, LexBlob, WordToken, BlockEnd, Run;
    var s := sign + rest;
    assert s[0] == sign[0] && PeekChar(s, 1) == PeekChar(rest, 0);
  }

  lemma LongHead(sign: string, rest: string)
    requires sign in LongSigns() && Delimited(rest)
    ensures HeadOf(sign + rest) == Take(LongSigns()[sign], |sign|)
  {
    var s := sign + rest;
    assert s[0] == sign[0] && s[1] == sign[1];
    assert PeekChar(s, 2) == if |sign| > 2 then Some(sign[2]) else PeekChar(rest, 0);
  }

  /** Each lexes as its own token. */
  lemma SignsLex(sign: string)
    ensures sign in ShortSigns() ==> LexesAs(sign, [ShortSigns()[sign]])
    ensures sign in LongSigns() ==> LexesAs(sign, [LongSigns()[sign]])
  {
    hide ShortSigns, LongSigns, HeadOf;
    forall rest | sign in ShortSigns() && Delimited(rest) ensures LexesAt(sign, [ShortSigns()[sign]], rest) {
      ShortHead(sign, rest);
      TokenHead(sign, rest, ShortSigns()[sign]);
    }
    forall rest | sign in LongSigns() && Delimited(rest) ensures LexesAt(sign, [LongSigns()[sign]], rest) {
      LongHead(sign, rest);
      TokenHead(sign, rest, LongSigns()[sign]);
    }
  }

  /** The keywords of the grammar, in capitals: those of up to four letters and the longer ones. */
  function ShortKeywords(): map<string, Word> {
    map["AND" := AndWord, "OR" := OrWord, "NOT" := NotWord, "IS" := IsWord, "IN" := InWord, "LIKE" := LikeWord,
        "GLOB" := GlobWord, "FROM" := FromWord, "TRUE" := TrueWord, "NULL" := NullWord]
  }

  function LongKeywords(): map<string, Word> {
    map["REGEXP" := RegexpWord, "ESCAPE" := EscapeWord, "BETWEEN" := BetweenWord, "COLLATE" := CollateWord,
        "DISTINCT" := DistinctWord, "FALSE" := FalseWord, "ISNULL" := IsNullWord, "NOTNULL" := NotNullWord]
  }

  lemma ShortKeywordIs(upper: string)
    requires upper in ShortKeywords()
    ensures GrammarWord(upper) == Some(ShortKeywords()[upper])
  {
  }

  lemma LongKeywordIs(upper: string)
    requires upper in LongKeywords()
    ensures GrammarWord(upper) == Some(LongKeywords()[upper])
  {
  }

  /** A word that is a keyword but for its letter case is that keyword, in front of any delimiter. */
  lemma KeywordsLex(text: string)
    requires WordShaped(text)
    ensures Upper(text) in ShortKeywords() ==> LexesAs(text, [Keyword(ShortKeywords()[Upper(text)])])
    ensures Upper(text) in LongKeywords() ==> LexesAs(text, [Keyword(LongKeywords()[Upper(text)])])
  {
    hide ShortKeywords, LongKeywords, GrammarWord, SoftName, IsOtherWord, Upper;
    if Upper(text) in ShortKeywords() { ShortKeywordIs(Upper(text)); }
    if Upper(text) in LongKeywords() { LongKeywordIs(Upper(text)); }
    var token := WordToken(text);
    forall rest | Delimited(rest) ensures LexesAt(text, [token], rest) {
      WordRead(text, rest);
      TokenHead(text, rest, token);
    }
  }
}
