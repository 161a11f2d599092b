/** The SQL lexer. Token positions are not modelled, and floating-point literals keep their text. */
module Lexing {
  import opened Common
  import opened Decimal

  /** The keywords the CHECK grammar looks at, those that double as names, and all others. */
  datatype Word =
    | AndWord | OrWord | NotWord | IsWord | InWord | LikeWord | GlobWord | RegexpWord | MatchWord
    | EscapeWord | BetweenWord | CollateWord | DistinctWord | FromWord | TrueWord | FalseWord | NullWord
    | IsNullWord | NotNullWord | ExistsWord | CaseWord | IfWord | SelectWord | ValuesWord
    | SoftWord(name: string)
    | ReplaceWord
    | OtherWord(text: string)

  datatype Token =
    | Keyword(word: Word)
    | Identifier(name: string)
    | IntegerToken(i: i64)
    | WideToken(n: nat)
    | RealToken(digits: string)
    | StringToken(text: string)
    | BlobToken(bytes: seq<byte>)
    | LParen | RParen | Comma | Dot | Star | Plus | Minus | Slash | Percent | Ampersand | Pipe | Tilde
    | Semicolon | EqSign | NeSign | GtSign | GteSign | LtSign | LteSign | ShiftLeft | ShiftRight
    | PipePipe | Arrow | ArrowText
    | EndOfInput

  // ----- Characters --------------------------------------------------------

  /** Rust's `char::is_whitespace`. */
  predicate IsSpace(c: char) {
    var n := c as int;
    (9 <= n <= 13) || n == 32 || n == 0x85 || n == 0xa0 || n == 0x1680 || (0x2000 <= n <= 0x200a)
    || n == 0x2028 || n == 0x2029 || n == 0x202f || n == 0x205f || n == 0x3000
  }

  predicate IsLetter(c: char) { 'a' <= c <= 'z' || 'A' <= c <= 'Z' }
  predicate StartsName(c: char) { IsLetter(c) || c == '_' }
  predicate ContinuesName(c: char) { IsLetter(c) || IsDigit(c) || c == '_' }

  function UpperChar(c: char): char { if 'a' <= c <= 'z' then (c as int - 32) as char else c }
  function Upper(s: string): (u: string)
    ensures |u| == |s|
  {
    seq(|s|, i requires 0 <= i < |s| => UpperChar(s[i]))
  }

  function PeekChar(s: string, i: nat): Option<char> { if i < |s| then Some(s[i]) else None }

  /** How many leading characters satisfy a test. */
  function Run(s: string, test: char -> bool): (n: nat)
    ensures n <= |s| && (n < |s| ==> !test(s[n])) && forall i :: 0 <= i < n ==> test(s[i])
  {
    if s == "" || !test(s[0]) then 0 else 1 + Run(s[1..], test)
  }

  // ----- Words -------------------------------------------------------------

  /** The keywords the CHECK grammar has no use for. */
  predicate IsOtherWord(upper: string) {
    upper in {
      "CREATE", "ALTER", "ADD", "RENAME", "DROP", "TABLE", "COLUMN", "TO", "UNIQUE", "INDEX", "ON", "OFF",
      "CONFLICT", "DO", "NOTHING", "INSERT", "INTO", "DELETE", "UPDATE", "SET", "WHERE", "GROUP", "HAVING",
      "ORDER", "BY", "LIMIT", "WITH", "RECURSIVE", "UNION", "INTERSECT", "EXCEPT", "ALL", "AS", "INNER", "CROSS",
      "LEFT", "RIGHT", "FULL", "OUTER", "NATURAL", "JOIN", "USING", "ASC", "DESC", "BEGIN", "START",
      "TRANSACTION", "ISOLATION", "COMMIT", "ROLLBACK", "WHEN", "THEN", "ELSE", "END", "EXPLAIN", "QUERY",
      "PLAN", "PRAGMA", "ANALYZE", "REINDEX", "VACUUM", "DEFAULT", "RETURNING", "CHECK", "CONSTRAINT",
      "FOREIGN", "REFERENCES", "GENERATED", "ALWAYS", "STORED", "VIRTUAL", "PRIMARY", "KEY", "STRICT",
      "AUTOINCREMENT", "INTEGER", "TEXT", "BLOB", "BOOLEAN"
    }
  }

  /** Keywords the parser also takes as names, with the spelling it gives them. */
  function SoftName(upper: string): Option<string> {
    if upper == "NULLS" then Some("nulls")
    else if upper == "FIRST" then Some("first")
    else if upper == "LAST" then Some("last")
    else if upper == "LEVEL" then Some("level")
    else if upper == "OFFSET" then Some("offset")
    else if upper == "READ" then Some("read")
    else if upper == "COMMITTED" then Some("committed")
    else if upper == "REPEATABLE" then Some("repeatable")
    else if upper == "SERIALIZABLE" then Some("serializable")
    else if upper == "SAVEPOINT" then Some("savepoint")
    else if upper == "RELEASE" then Some("release")
    else None
  }

  function GrammarWord(upper: string): Option<Word> {
    if upper == "AND" then Some(AndWord)
    else if upper == "OR" then Some(OrWord)
    else if upper == "NOT" then Some(NotWord)
    else if upper == "IS" then Some(IsWord)
    else if upper == "IN" then Some(InWord)
    else if upper == "LIKE" then Some(LikeWord)
    else if upper == "GLOB" then Some(GlobWord)
    else if upper == "REGEXP" then Some(RegexpWord)
    else if upper == "MATCH" then Some(MatchWord)
    else if upper == "ESCAPE" then Some(EscapeWord)
    else if upper == "BETWEEN" then Some(BetweenWord)
    else if upper == "COLLATE" then Some(CollateWord)
    else if upper == "DISTINCT" then Some(DistinctWord)
    else if upper == "FROM" then Some(FromWord)
    else if upper == "TRUE" then Some(TrueWord)
    else if upper == "FALSE" then Some(FalseWord)
    else if upper == "NULL" then Some(NullWord)
    else if upper == "ISNULL" then Some(IsNullWord)
    else if upper == "NOTNULL" then Some(NotNullWord)
    else if upper == "EXISTS" then Some(ExistsWord)
    else if upper == "CASE" then Some(CaseWord)
    else if upper == "IF" then Some(IfWord)
    else if upper == "SELECT" then Some(SelectWord)
    else if upper == "VALUES" then Some(ValuesWord)
    else if upper == "REPLACE" then Some(ReplaceWord)
    else None
  }

  /** The keyword a word is, in any letter case. */
  function WordOf(text: string): Option<Word> {
    var upper := Upper(text);
    if GrammarWord(upper).Some? then GrammarWord(upper)
    else if SoftName(upper).Some? then Some(SoftWord(SoftName(upper).value))
    else if IsOtherWord(upper) then Some(OtherWord(upper))
    else None
  }

  function WordToken(text: string): Token {
    if WordOf(text).Some? then Keyword(WordOf(text).value) else Identifier(text)
  }

  // ----- Quoted text -------------------------------------------------------

  function WithChar(c: char, taken: nat, rest: Option<(string, nat)>): Option<(string, nat)> {
    if rest.None? then None else Some(([c] + rest.value.0, rest.value.1 + taken))
  }

  /** The text up to the closing quote, a doubled quote standing for one when `doubles`, and how many
      characters that took, the quote included. */
  function Quoted(s: string, closer: char, doubles: bool): (r: Option<(string, nat)>)
    ensures r.Some? ==> 0 < r.value.1 <= |s|
    decreases |s|
  {
    if s == "" then None
    else if s[0] == closer then
      if doubles && PeekChar(s, 1) == Some(closer) then WithChar(closer, 2, Quoted(s[2..], closer, doubles))
      else Some(("", 1))
    else WithChar(s[0], 1, Quoted(s[1..], closer, doubles))
  }

  function HexValue(c: char): Option<nat> {
    if IsDigit(c) then Some(DigitValue(c))
    else if 'a' <= c <= 'f' then Some(c as int - 'a' as int + 10)
    else if 'A' <= c <= 'F' then Some(c as int - 'A' as int + 10)
    else None
  }

  /** Pairs of hexadecimal digits; Rust's `from_str_radix` also takes a plus sign before one digit. */
  function HexBytes(s: string): Option<seq<byte>> {
    if s == "" then Some([])
    else if |s| == 1 then None
    else
      var high, low, rest := if s[0] == '+' then Some(0) else HexValue(s[0]), HexValue(s[1]), HexBytes(s[2..]);
      if high.Some? && low.Some? && rest.Some? then Some([(high.value * 16 + low.value) as byte] + rest.value) else None
  }

  // ----- Numbers -----------------------------------------------------------

  predicate IsNumberChar(c: char) { IsDigit(c) || c == '_' }
  predicate IsHexChar(c: char) { HexValue(c).Some? || c == '_' }

  function WithoutUnderscores(s: string): (r: string)
    ensures |r| <= |s|
    ensures forall c :: c in r ==> c in s && c != '_'
  {
    if s == "" then "" else if s[0] == '_' then WithoutUnderscores(s[1..]) else [s[0]] + WithoutUnderscores(s[1..])
  }

  function HexNumber(s: string): nat
    requires forall c :: c in s ==> HexValue(c).Some?
  {
    if s == "" then 0 else 16 * HexNumber(s[..|s| - 1]) + HexValue(s[|s| - 1]).value
  }

  function HexLiteral(s: string): Result<(Token, nat)>
    requires |s| >= 2
  {
    var n := Run(s[2..], c => IsHexChar(c));
    var digits := WithoutUnderscores(s[2..][..n]);
    if digits == "" || HexNumber(digits) >= 0x1_0000_0000_0000_0000 then Err(Syntax)
    else
      var u := HexNumber(digits);
      Ok((IntegerToken(if u <= MAX_I64 then u else u - 0x1_0000_0000_0000_0000), 2 + n))
  }

  /** Where the fraction that may start at `n` ends. */
  function FractionEnd(s: string, n: nat): (m: nat)
    requires n <= |s|
    ensures n <= m <= |s|
  {
    var nextIsDigit := PeekChar(s, n + 1).Some? && IsDigit(PeekChar(s, n + 1).value);
    if PeekChar(s, n) == Some('.') && (n > 0 || nextIsDigit) then n + 1 + Run(s[n + 1..], c => IsNumberChar(c)) else n
  }

  /** Where the exponent that may start at `n` ends. */
  function ExponentEnd(s: string, n: nat): (m: nat)
    requires n <= |s|
    ensures n <= m <= |s|
  {
    if PeekChar(s, n) != Some('e') && PeekChar(s, n) != Some('E') then n
    else
      var d := if PeekChar(s, n + 1) == Some('+') || PeekChar(s, n + 1) == Some('-') then n + 2 else n + 1;
      if PeekChar(s, d).Some? && IsDigit(PeekChar(s, d).value) then d + Run(s[d..], c => IsNumberChar(c)) else n
  }

  /** `lex_number`: integers within 64 bits, wider ones and reals apart. */
  function LexNumber(s: string): Result<(Token, nat)>
    requires s != "" && (IsDigit(s[0]) || s[0] == '.')
  {
    if s[0] == '0' && (PeekChar(s, 1) == Some('x') || PeekChar(s, 1) == Some('X')) then HexLiteral(s)
    else
      var whole := Run(s, c => IsNumberChar(c));
      var fraction := FractionEnd(s, whole);
      var end := ExponentEnd(s, fraction);
      if end > whole then Ok((RealToken(WithoutUnderscores(s[..end])), end))
      else
        var value := NatValue(WithoutUnderscores(s[..whole]));
        Ok((if value <= MAX_I64 then IntegerToken(value) else WideToken(value), whole))
  }

  // ----- Tokens ------------------------------------------------------------

  /** Operators and punctuation: the token and its length. */
  function LexSymbol(s: string): Option<(Token, nat)>
    requires s != ""
  {
    var second, third := PeekChar(s, 1), PeekChar(s, 2);
    match s[0]
    case '(' => Some((LParen, 1))
    case ')' => Some((RParen, 1))
    case ',' => Some((Comma, 1))
    case '.' => Some((Dot, 1))
    case '*' => Some((Star, 1))
    case '+' => Some((Plus, 1))
    case '%' => Some((Percent, 1))
    case '&' => Some((Ampersand, 1))
    case '~' => Some((Tilde, 1))
    case ';' => Some((Semicolon, 1))
    case '/' => Some((Slash, 1))
    case '=' => Some((EqSign, if second == Some('=') then 2 else 1))
    case '!' => if second == Some('=') then Some((NeSign, 2)) else None
    case '>' =>
      if second == Some('=') then Some((GteSign, 2)) else if second == Some('>') then Some((ShiftRight, 2))
          else Some((GtSign, 1))
    case '<' =>
      if second == Some('=') then Some((LteSign, 2))
      else if second == Some('>') then Some((NeSign, 2))
      else if second == Some('<') then Some((ShiftLeft, 2)) else Some((LtSign, 1))
    case '-' =>
      if second != Some('>') then Some((Minus, 1)) else if third == Some('>') then Some((ArrowText, 3))
          else Some((Arrow, 2))
    case '|' => if second == Some('|') then Some((PipePipe, 2)) else Some((Pipe, 1))
    case _ => None
  }

  function Closed(quoted: Option<(string, nat)>, opener: nat, token: string -> Token): Result<(Token, nat)> {
    if quoted.None? then Err(Syntax) else Ok((token(quoted.value.0), opener + quoted.value.1))
  }

  function LexBlob(s: string): Result<(Token, nat)>
    requires |s| >= 2
  {
    match Quoted(s[2..], '\'', true)
    case None => Err(Syntax)
    case Some((hex, n)) => if HexBytes(hex).None? then Err(Syntax) else Ok((BlobToken(HexBytes(hex).value), 2 + n))
  }

  /** One token at the start of a text that starts with neither space nor comment. */
  function LexToken(s: string): (r: Result<(Token, nat)>)
    requires s != ""
    ensures r.Ok? ==> 0 < r.value.1 <= |s|
  {
    var c := s[0];
    if c == '\'' then Closed(Quoted(s[1..], '\'', true), 1, t => StringToken(t))
    else if c == '"' then Closed(Quoted(s[1..], '"', true), 1, t => Identifier(t))
    else if c == '`' then Closed(Quoted(s[1..], '`', false), 1, t => Identifier(t))
    else if c == '[' then Closed(Quoted(s[1..], ']', false), 1, t => Identifier(t))
    else if IsDigit(c) || (c == '.' && PeekChar(s, 1).Some? && IsDigit(PeekChar(s, 1).value)) then LexNumber(s)
    else if (c == 'x' || c == 'X') && PeekChar(s, 1) == Some('\'') then LexBlob(s)
    else if StartsName(c) then
      var n := Run(s, d => ContinuesName(d));
      Ok((WordToken(s[..n]), n))
    else match LexSymbol(s)
      case None => Err(Syntax)
      case Some((token, n)) => Ok((token, n))
  }

  /** How many characters a block comment takes up to and including its closing mark. */
  function BlockEnd(s: string): (r: Option<nat>)
    ensures r.Some? ==> 0 < r.value <= |s|
  {
    if s == "" then None
    else if s[0] == '*' && PeekChar(s, 1) == Some('/') then Some(2)
    else match BlockEnd(s[1..]) case None => None case Some(n) => Some(n + 1)
  }

  /** What a text starts with: its end, something to skip, or a token. */
  datatype Head = AtEnd | Skip(n: nat) | Take(token: Token, n: nat) | Bad

  function HeadOf(s: string): (h: Head)
    ensures h.Skip? || h.Take? ==> 0 < h.n <= |s|
  {
    if s == "" then AtEnd
    else if IsSpace(s[0]) then Skip(1)
    else if s[0] == '-' && PeekChar(s, 1) == Some('-') then
      var n := Run(s, c => c != '\n');
      Skip(if n < |s| then n + 1 else n)
    else if s[0] == '/' && PeekChar(s, 1) == Some('*') then
      (match BlockEnd(s[2..]) case None => Bad case Some(n) => Skip(n + 2))
    else match LexToken(s)
      case Err(_) => Bad
      case Ok((token, n)) => Take(token, n)
  }

  /** `lex`. */
  function Lex(s: string): Result<seq<Token>> {
    match HeadOf(s)
    case AtEnd => Ok([EndOfInput])
    case Bad => Err(Syntax)
    case Skip(n) => Lex(s[n..])
    case Take(token, n) =>
      match Lex(s[n..])
      case Err(e) => Err(e)
      case Ok(rest) => Ok([token] + rest)
  }

  // ----- The lexer as the source runs it -----------------------------------

  /** What reading on from a later place contributes to a quoted text already read in part. */
  function Continued(read: string, used: nat, rest: Option<(string, nat)>): Option<(string, nat)> {
    if rest.None? then None else Some((read + rest.value.0, used + rest.value.1))
  }

  lemma ContinuedChar(read: string, used: nat, c: char, taken: nat, rest: Option<(string, nat)>)
    ensures Continued(read, used, WithChar(c, taken, rest)) == Continued(read + [c], used + taken, rest)
  {
    if rest.Some? { assert read + ([c] + rest.value.0) == (read + [c]) + rest.value.0; }
  }

  lemma QuotedStep(s: string, closer: char, doubles: bool, read: string, used: nat)
    requires s != ""
    ensures s[0] == closer && doubles && PeekChar(s, 1) == Some(closer) ==>
              Continued(read, used, Quoted(s, closer, doubles)) ==
                  Continued(read + [closer], used + 2, Quoted(s[2..], closer, doubles))
    ensures s[0] == closer && !(doubles && PeekChar(s, 1) == Some(closer)) ==>
            Continued(read, used, Quoted(s, closer, doubles)) == Some((read, used + 1))
    ensures s[0] != closer ==>
              Continued(read, used, Quoted(s, closer, doubles)) ==
                  Continued(read + [s[0]], used + 1, Quoted(s[1..], closer, doubles))
  {
    if s[0] != closer {
      ContinuedChar(read, used, s[0], 1, Quoted(s[1..], closer, doubles));
    } else if doubles && PeekChar(s, 1) == Some(closer) {
      ContinuedChar(read, used, closer, 2, Quoted(s[2..], closer, doubles));
    } else {
      assert read + "" == read;
    }
  }

  class Lexer {
    const input: string
    var offset: nat

    constructor (text: string)
      ensures input == text && offset == 0
    {
      input := text;
      offset := 0;
    }

    predicate Valid()
      reads this
    {
      offset <= |input|
    }

    function Rest(): string
      requires Valid()
      reads this
    {
      input[offset..]
    }

    method AdvanceWhile(test: char -> bool)
      requires Valid()
      modifies this
      ensures Valid() && offset == old(offset) + Run(old(Rest()), test)
    {
      while offset < |input| && test(input[offset])
        invariant Valid() && old(offset) <= offset
        invariant Run(old(Rest()), test) == offset - old(offset) + Run(Rest(), test)
      {
        assert Rest()[0] == input[offset] && Rest()[1..] == input[offset + 1..];
        offset := offset + 1;
      }
    }

    /** From just past an opening quote to just past the closing one. */
    method LexQuoted(closer: char, doubles: bool) returns (r: Option<string>)
      requires Valid()
      modifies this
      ensures Valid() && r.Some? == Quoted(old(Rest()), closer, doubles).Some?
      ensures r.Some? ==> Quoted(old(Rest()), closer, doubles) == Some((r.value, offset - old(offset)))
    {
      var value := "";
      ghost var start, whole := offset, Quoted(Rest(), closer, doubles);
      if whole.Some? { assert "" + whole.value.0 == whole.value.0; }
      while offset < |input|
        invariant Valid() && start <= offset
        invariant whole == Continued(value, offset - start, Quoted(Rest(), closer, doubles))
      {
        var ch := input[offset];
        QuotedStep(Rest(), closer, doubles, value, offset - start);
        assert Rest()[1..] == input[offset + 1..];
        assert |Rest()| > 1 ==> Rest()[1] == input[offset + 1] && Rest()[2..] == input[offset + 2..];
        if ch == closer {
          if doubles && offset + 1 < |input| && input[offset + 1] == closer {
            value := value + [closer];
            offset := offset + 2;
            continue;
          }
          offset := offset + 1;
          return Some(value);
        }
        value := value + [ch];
        offset := offset + 1;
      }
      r := None;
    }

    method LexWord() returns (token: Token)
      requires Valid() && offset < |input| && StartsName(input[offset])
      modifies this
      ensures Valid()
      ensures var n := Run(old(Rest()), c => ContinuesName(c));
              token == WordToken(old(Rest())[..n]) && offset == old(offset) + n
    {
      var start := offset;
      AdvanceWhile(c => ContinuesName(c));
      assert input[start..offset] == old(Rest())[..offset - start];
      token := WordToken(input[start..offset]);
    }

    /** A token that is not made by a loop of its own is read off the rest of the input. */
    method LexOne() returns (r: Result<Token>)
      requires Valid() && offset < |input|
      modifies this
      ensures Valid() && r.Ok? == LexToken(old(Rest())).Ok?
      ensures r.Ok? ==> LexToken(old(Rest())) == Ok((r.value, offset - old(offset)))
    {
      var c := input[offset];
      ghost var s := Rest();
      assert s[0] == c && s[1..] == input[offset + 1..];
      if c == '\'' || c == '"' || c == '`' || c == '[' {
        offset := offset + 1;
        var text := LexQuoted(if c == '[' then ']' else c, c == '\'' || c == '"');
        if text.None? {
          return Err(Syntax);
        }
        r := Ok(if c == '\'' then StringToken(text.value) else Identifier(text.value));
      } else if StartsName(c) && !((c == 'x' || c == 'X') && PeekChar(Rest(), 1) == Some('\'')) {
        var token := LexWord();
        r := Ok(token);
      } else {
        match LexToken(Rest())
        case Err(e) => r := Err(e);
        case Ok((token, n)) =>
          offset := offset + n;
          r := Ok(token);
      }
    }

    method LexAll() returns (r: Result<seq<Token>>)
      requires Valid()
      modifies this
      ensures r.Ok? == Lex(old(Rest())).Ok?
      ensures r.Ok? ==> r == Lex(old(Rest()))
    {
      hide LexToken;
      var tokens: seq<Token> := [];
      ghost var whole := Lex(Rest());
      if whole.Ok? { assert [] + whole.value == whole.value; }
      while offset < |input|
        invariant Valid()
        invariant whole.Ok? == Lex(Rest()).Ok?
        invariant whole.Ok? ==> whole.value == tokens + Lex(Rest()).value
        decreases |input| - offset
      {
        var head := HeadOf(Rest());
        ghost var s := Rest();
        if head.Skip? {
          offset := offset + head.n;
          assert Rest() == s[head.n..];
        } else if head.Bad? {
          return Err(Syntax);
        } else {
          var token := LexOne();
          if token.Err? {
            return Err(Syntax);
          }
          assert Rest() == s[head.n..];
          tokens := tokens + [token.value];
        }
      }
      r := Ok(tokens + [EndOfInput]);
    }
  }
}
