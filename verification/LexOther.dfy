/** What the lexer makes of texts the printer does not write: space, comments, quoted names, and
    hexadecimal and underscored numbers. */
module LexOther {
  import opened Common
  import opened Lexing
  import opened LexPrinted

  // ----- Space and comments ------------------------------------------------

  /** Space is skipped. */
  lemma SpaceSkipped(c: char, rest: string)
    requires c in {' ', '\t', '\n', '\r', '\U{00a0}', '\U{3000}'}
    ensures Lex([c] + rest) == Lex(rest)
  {
    assert ([c] + rest)[1..] == rest;
  }

  /** A line comment reaches up to the end of its line, or of the text. */
  lemma LineComment(text: string, rest: string)
    requires '\n' !in text
    ensures Lex("--" + text + "\n" + rest) == Lex(rest)
    ensures Lex("--" + text) == Ok([EndOfInput])
  {
    var s, end := "--" + text + "\n" + rest, "\n" + rest;
    assert "--" + text + end == s && s[0] == '-' && s[1] == '-';
    RunStops("--" + text, end, c => c != '\n');
    assert s[|text| + 3..] == rest;
    var t := "--" + text;
    assert t + "" == t && t[0] == '-' && t[1] == '-';
    RunStops(t, "", c => c != '\n');
    assert t[|t|..] == "";
  }

  /** No star of the text has a slash behind it. */
  predicate NoEnd(text: string) { forall k :: 0 <= k < |text| - 1 && text[k] == '*' ==> text[k + 1] != '/' }

  lemma {:induction false} BlockEndIs(text: string, rest: string)
    requires NoEnd(text + "*")
    ensures BlockEnd(text + ("*/" + rest)) == Some(|text| + 2)
    ensures NoEnd(text) ==> BlockEnd(text).None?
  {
    var s := text + ("*/" + rest);
    if text == "" {
      assert s == "*/" + rest;
    } else {
      assert s[0] == text[0] && s[1..] == text[1..] + ("*/" + rest);
      assert forall k :: 0 <= k < |text| ==> (text[1..] + "*")[k] == (text + "*")[k + 1];
      assert (text + "*")[0] == text[0] && (text + "*")[1] == s[1];
      BlockEndIs(text[1..], rest);
    }
  }

  /** A block comment reaches up to the first end mark; one that never ends is refused. */
  lemma BlockComment(text: string, rest: string)
    requires NoEnd(text + "*")
    ensures Lex("/*" + text + "*/" + rest) == Lex(rest)
    ensures Lex("/*" + text) == Err(Syntax)
  {
    BlockEndIs(text, rest);
    var s, t := "/*" + text + "*/" + rest, "/*" + text;
    assert s[2..] == text + ("*/" + rest) && s[0] == '/' && s[1] == '*';
    assert s[|text| + 4..] == rest;
    assert t[2..] == text && t[0] == '/' && t[1] == '*';
    assert forall k :: 0 <= k < |text| ==> (text + "*")[k] == text[k];
  }

  // ----- Quoted names ------------------------------------------------------

  lemma {:induction false} QuotedPlain(text: string, closer: char, doubles: bool, rest: string)
    requires closer !in text && (doubles && rest != "" ==> rest[0] != closer)
    ensures Quoted(text + ([closer] + rest), closer, doubles) == Some((text, |text| + 1))
  {
    var s := text + ([closer] + rest);
    if text == "" {
      assert s[0] == closer && PeekChar(s, 1) == PeekChar(rest, 0);
    } else {
      assert s[0] == text[0] && s[1..] == text[1..] + ([closer] + rest) && text == [text[0]] + text[1..];
      QuotedPlain(text[1..], closer, doubles, rest);
    }
  }

  /** A name in double quotes, backticks or square brackets is that identifier, keywords included. */
  lemma QuotedNameLexes(name: string, opener: char, closer: char, rest: string)
    requires (opener == '"' && closer == '"') || (opener == '`' && closer == '`') || (opener == '[' && closer == ']')
    requires closer !in name && Delimited(rest)
    ensures LexesAt([opener] + name + [closer], [Identifier(name)], rest)
  {
    var s := [opener] + name + [closer] + rest;
    assert s[0] == opener && s[1..] == name + ([closer] + rest);
    QuotedPlain(name, closer, opener == '"', rest);
    TokenHead([opener] + name + [closer], rest, Identifier(name));
  }

  // ----- Numbers -------------------------------------------------------------

  function TwosComplement(n: nat): (i: i64)
    requires n < 0x1_0000_0000_0000_0000
  {
    if n < 0x8000_0000_0000_0000 then n as int else n - 0x1_0000_0000_0000_0000
  }

  /** Digits after 0x are read in base 16, as a 64-bit two's-complement number. */
  lemma HexLexes(digits: string, x: char, rest: string)
    requires digits != "" && (forall c :: c in digits ==> HexValue(c).Some?) && (x == 'x' || x == 'X')
    requires HexNumber(digits) < 0x1_0000_0000_0000_0000 && Delimited(rest)
    ensures LexesAt(['0', x] + digits, [IntegerToken(TwosComplement(HexNumber(digits)))], rest)
  {
    hide Quoted, LexBlob, WordToken, BlockEnd, HexNumber;
    var s := ['0', x] + digits + rest;
    assert s[0] == '0' && s[1] == x && s[2..] == digits + rest;
    RunStops(digits, rest, c => IsHexChar(c));
    assert (digits + rest)[..|digits|] == digits;
    NoUnderscores(digits);
    TokenHead(['0', x] + digits, rest, IntegerToken(TwosComplement(HexNumber(digits))));
  }

  lemma {:induction false} NoUnderscores(digits: string)
    requires forall c :: c in digits ==> HexValue(c).Some?
    ensures WithoutUnderscores(digits) == digits
  {
    if digits != "" {
      assert digits[0] in digits && digits == [digits[0]] + digits[1..];
      NoUnderscores(digits[1..]);
    }
  }

  lemma HexDigits()
    ensures HexNumber("1F") == 31 && HexNumber("a0") == 160 && WithoutUnderscores("1_0") == "10"
  {
    assert "1F"[..1] == "1" && "a0"[..1] == "a" && "1"[..0] == "" && "a"[..0] == "";
    assert "1_0"[1..] == "_0" && "_0"[1..] == "0" && "0"[1..] == "";
  }
}
