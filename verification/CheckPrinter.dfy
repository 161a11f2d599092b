/** CHECK expressions as SQL text, and the tokens that text is made of. */
module CheckPrinter {
  import opened Common
  import opened Decimal
  import opened Values
  import opened CheckExprs
  import opened Lexing

  // ----- Rendering ---------------------------------------------------------

  function RenderOp(op: CompareOp): string {
    match op
    case Eq => "="
    case Ne => "!="
    case Gt => ">"
    case Gte => ">="
    case Lt => "<"
    case Lte => "<="
  }

  function HexChar(n: nat): (c: char)
    requires n < 16
    ensures HexValue(c) == Some(n)
  {
    if n < 10 then '0' + n as char else 'A' + (n - 10) as char
  }

  function HexText(bytes: seq<byte>): string {
    if bytes == [] then "" else [HexChar(bytes[0] / 16), HexChar(bytes[0] % 16)] + HexText(bytes[1..])
  }

  /** Every quote doubled. */
  function Doubled(text: string): string {
    if text == "" then "" else (if text[0] == '\'' then "''" else [text[0]]) + Doubled(text[1..])
  }

  function RenderText(text: string): string { "'" + Doubled(text) + "'" }

  /** `render_literal`. */
  function RenderLiteral(v: Value): string {
    match v
    case Null => "NULL"
    case Boolean(b) => if b then "true" else "false"
    case Integer(i) => IntText(i)
    case Blob(bytes) => "X'" + HexText(bytes) + "'"
    case Text(text) => RenderText(text)
  }

  /** Two phrases with a space between them. */
  function Words(a: string, b: string): string { a + " " + b }

  function InBrackets(s: string): string { "(" + s + ")" }

  /** Rust's `join(", ")` over rendered literals. */
  function RenderList(values: seq<Value>): string {
    if values == [] then "" else if |values| == 1 then RenderLiteral(values[0])
    else RenderLiteral(values[0]) + ("," + (" " + RenderList(values[1..])))
  }

  /** The phrase with a space before it, and NOT when it is negated. */
  function Negated(negated: bool, phrase: string): string {
    if negated then " " + Words("NOT", phrase) else " " + phrase
  }

  /** What follows the column of a leaf. */
  function RenderTest(test: PlainTest): string {
    match test
    case Compare(op, v) => " " + Words(RenderOp(op), RenderLiteral(v))
    case IsNull(negated) => " " + ("IS" + Negated(negated, "NULL"))
    case GlobMatch(pattern, negated) => Negated(negated, Words("GLOB", RenderText(pattern)))
    case RegexpMatch(pattern, negated) => Negated(negated, Words("REGEXP", RenderText(pattern)))
    case InList(values, negated) => Negated(negated, Words("IN", InBrackets(RenderList(values))))
    case Between(low, high, negated) =>
      Negated(negated, Words("BETWEEN", Words(RenderLiteral(low), Words("AND", RenderLiteral(high)))))
  }

  /** `render_check_expr`. */
  function Render(e: PlainCheck): string {
    match e
    case Leaf(column, test) => column + RenderTest(test)
    case And(l, r) => Words(InBrackets(Render(l)), Words("AND", InBrackets(Render(r))))
    case Or(l, r) => Words(InBrackets(Render(l)), Words("OR", InBrackets(Render(r))))
    case Not(inner) => Words("NOT", InBrackets(Render(inner)))
  }

  // ----- The tokens of a rendering -----------------------------------------

  function OpToken(op: CompareOp): Token {
    match op
    case Eq => EqSign
    case Ne => NeSign
    case Gt => GtSign
    case Gte => GteSign
    case Lt => LtSign
    case Lte => LteSign
  }

  function NumberToken(n: nat): Token { if n <= MAX_I64 then IntegerToken(n) else WideToken(n) }

  function LiteralTokens(v: Value): seq<Token> {
    match v
    case Null => [Keyword(NullWord)]
    case Boolean(b) => [Keyword(if b then TrueWord else FalseWord)]
    case Integer(i) => if i < 0 then [Minus, NumberToken(0 - i)] else [NumberToken(i)]
    case Blob(bytes) => [BlobToken(bytes)]
    case Text(text) => [StringToken(text)]
  }

  function ListTokens(values: seq<Value>): seq<Token> {
    if values == [] then [] else if |values| == 1 then LiteralTokens(values[0])
    else LiteralTokens(values[0]) + ([Comma] + ListTokens(values[1..]))
  }

  function BracketTokens(ts: seq<Token>): seq<Token> { [LParen] + (ts + [RParen]) }

  function NegatedTokens(negated: bool, ts: seq<Token>): seq<Token> {
    if negated then [Keyword(NotWord)] + ts else ts
  }

  function TestTokens(test: PlainTest): seq<Token> {
    match test
    case Compare(op, v) => [OpToken(op)] + LiteralTokens(v)
    case IsNull(negated) => [Keyword(IsWord)] + NegatedTokens(negated, [Keyword(NullWord)])
    case GlobMatch(pattern, negated) => NegatedTokens(negated, [Keyword(GlobWord)] + [StringToken(pattern)])
    case RegexpMatch(pattern, negated) => NegatedTokens(negated, [Keyword(RegexpWord)] + [StringToken(pattern)])
    case InList(values, negated) => NegatedTokens(negated, [Keyword(InWord)] + BracketTokens(ListTokens(values)))
    case Between(low, high, negated) =>
      NegatedTokens(negated, [Keyword(BetweenWord)] + (LiteralTokens(low) + ([Keyword(AndWord)] + LiteralTokens(high))))
  }

  /** The tokens of an expression, given the token each column name becomes. */
  function CheckTokens(word: string -> Token, e: PlainCheck): seq<Token> {
    match e
    case Leaf(column, test) => [word(column)] + TestTokens(test)
    case And(l, r) => BracketTokens(CheckTokens(word, l)) + ([Keyword(AndWord)] + BracketTokens(CheckTokens(word, r)))
    case Or(l, r) => BracketTokens(CheckTokens(word, l)) + ([Keyword(OrWord)] + BracketTokens(CheckTokens(word, r)))
    case Not(inner) => [Keyword(NotWord)] + BracketTokens(CheckTokens(word, inner))
  }

  /** The lexer's token for a bare word. */
  function BareWord(): string -> Token { name => WordToken(name) }
}
