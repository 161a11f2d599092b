/** The language of a GLOB pattern, and that the matcher decides it. */
module GlobLanguage {
  import opened Common
  import opened Glob

  /** The characters from one to another, both included. */
  datatype Span = Span(low: char, high: char)

  datatype Item =
    | AnyText
    | AnyChar
    | Exactly(only: char)
    | OneOf(spans: seq<Span>)
    | NoneOf(spans: seq<Span>)

  /** The spans of a class up to its closing bracket, and the position after it. */
  function Spans(pattern: string, i: nat): (r: Option<(seq<Span>, nat)>)
    ensures r.Some? ==> i < r.value.1 <= |pattern|
    decreases |pattern| - i
  {
    if i >= |pattern| then None
    else if pattern[i] == ']' then Some(([], i + 1))
    else
      var wide := i + 2 < |pattern| && pattern[i + 1] == '-' && pattern[i + 2] != ']';
      match Spans(pattern, if wide then i + 3 else i + 1)
      case None => None
      case Some((spans, end)) => Some(([Span(pattern[i], if wide then pattern[i + 2] else pattern[i])] + spans, end))
  }

  /** A pattern item by item; None when a class is never closed. */
  function Items(pattern: string): Option<seq<Item>>
    decreases |pattern|
  {
    if pattern == "" then Some([])
    else if pattern[0] == '[' then
      var negated := 1 < |pattern| && pattern[1] == '^';
      match Spans(pattern, if negated then 2 else 1)
      case None => None
      case Some((spans, end)) => Before(if negated then NoneOf(spans) else OneOf(spans), Items(pattern[end..]))
    else Before(if pattern[0] == '*' then AnyText else if pattern[0] == '?' then AnyChar else Exactly(pattern[0]),
                Items(pattern[1..]))
  }

  function Before(item: Item, rest: Option<seq<Item>>): Option<seq<Item>> {
    if rest.None? then None else Some([item] + rest.value)
  }

  predicate Among(c: char, spans: seq<Span>) { exists s :: s in spans && s.low <= c <= s.high }

  predicate Stands(item: Item, c: char) {
    match item
    case AnyText => false
    case AnyChar => true
    case Exactly(d) => c == d
    case OneOf(spans) => Among(c, spans)
    case NoneOf(spans) => !Among(c, spans)
  }

  /** A text in the language: `*` stands for a text of any length, the other items for one character. */
  ghost predicate InLanguage(items: seq<Item>, text: string)
    decreases |items|
  {
    if items == [] then text == ""
    else if items[0].AnyText? then exists k :: 0 <= k <= |text| && InLanguage(items[1..], text[k..])
    else text != "" && Stands(items[0], text[0]) && InLanguage(items[1..], text[1..])
  }

  /** The matcher's class scan is membership in the spans. */
  lemma {:induction false} ClassMeans(pattern: string, i: nat, matched: bool, negated: bool, c: char)
    ensures ClassFrom(pattern, i, matched, negated, c) ==
            match Spans(pattern, i)
            case None => None
            case Some((spans, end)) => Some(((matched || Among(c, spans)) != negated, end))
    decreases |pattern| - i
  {
    if i < |pattern| && pattern[i] != ']' {
      var wide := i + 2 < |pattern| && pattern[i + 1] == '-' && pattern[i + 2] != ']';
      var next, span := if wide then i + 3 else i + 1, Span(pattern[i], if wide then pattern[i + 2] else pattern[i]);
      ClassMeans(pattern, next, matched || span.low <= c <= span.high, negated, c);
      if Spans(pattern, next).Some? { AmongStep(c, span, Spans(pattern, next).value.0); }
    }
  }

  lemma AmongStep(c: char, span: Span, spans: seq<Span>)
    ensures Among(c, [span] + spans) <==> span.low <= c <= span.high || Among(c, spans)
  {
    assert span in [span] + spans;
    assert forall s :: s in spans ==> s in [span] + spans;
  }

  /** `*` takes nothing, or one more character. */
  lemma AnyTextStep(items: seq<Item>, text: string)
    requires items != [] && items[0].AnyText?
    ensures InLanguage(items, text) <==> InLanguage(items[1..], text) || (text != "" && InLanguage(items, text[1..]))
  {
    assert text[0..] == text;
    if text != "" {
      assert forall k :: 0 <= k <= |text| - 1 ==> text[1..][k..] == text[k + 1..];
      if InLanguage(items, text) && !InLanguage(items[1..], text) {
        var k :| 0 <= k <= |text| && InLanguage(items[1..], text[k..]);
        assert text[1..][k - 1..] == text[k..];
      }
    }
  }

  /** A text matches a pattern exactly when the pattern closes its classes and the text is in its language. */
  lemma {:induction false} MatchesDecides(text: string, pattern: string)
    ensures Matches(text, pattern) <==> Items(pattern).Some? && InLanguage(Items(pattern).value, text)
    decreases |pattern| + |text|, 1
  {
    if pattern != "" {
      if pattern[0] == '*' {
        MatchesDecides(text, pattern[1..]);
        if text != "" { MatchesDecides(text[1..], pattern); }
        if Items(pattern).Some? {
          assert Items(pattern).value[1..] == Items(pattern[1..]).value;
          AnyTextStep(Items(pattern).value, text);
        }
      } else if text != "" {
        OneCharacter(text, pattern);
      }
    }
  }

  lemma {:induction false} OneCharacter(text: string, pattern: string)
    requires pattern != "" && pattern[0] != '*' && text != ""
    ensures Matches(text, pattern) <==> Items(pattern).Some? && InLanguage(Items(pattern).value, text)
    decreases |pattern| + |text|, 0
  {
    var next := 1;
    if pattern[0] == '[' {
      var negated := 1 < |pattern| && pattern[1] == '^';
      var start := if negated then 2 else 1;
      ClassMeans(pattern, start, false, negated, text[0]);
      if Spans(pattern, start).None? { return; }
      next := Spans(pattern, start).value.1;
    }
    MatchesDecides(text[1..], pattern[next..]);
    if Items(pattern).Some? { assert Items(pattern).value[1..] == Items(pattern[next..]).value; }
  }

  // ----- The optimizer's bounds --------------------------------------------

  /** One or more ASCII characters that stand for themselves, the last not the last ASCII one, and then
      any text. */
  predicate LiteralThenAny(items: seq<Item>) {
    var n := |items| - 1;
    n >= 1 && items[n].AnyText? && (forall k :: 0 <= k < n ==> items[k].Exactly? && items[k].only as int < 128) &&
    items[n - 1].only as int < 127
  }

  function Literals(prefix: string): (items: seq<Item>)
    ensures |items| == |prefix| && forall k :: 0 <= k < |items| ==> items[k] == Exactly(prefix[k])
  {
    seq(|prefix|, k requires 0 <= k < |prefix| => Exactly(prefix[k]))
  }

  lemma {:induction false} LiteralItems(prefix: string)
    requires '*' !in prefix && '?' !in prefix && '[' !in prefix
    ensures Items(prefix + "*") == Some(Literals(prefix) + [AnyText])
  {
    var pattern := prefix + "*";
    assert Items("") == Some([]);
    if prefix == "" {
      assert pattern == "*" && pattern[1..] == "" && Literals(prefix) == [];
      assert [AnyText] + [] == Literals(prefix) + [AnyText];
    } else {
      assert pattern[0] in prefix && pattern[1..] == prefix[1..] + "*" && forall c :: c in prefix[1..] ==> c in prefix;
      LiteralItems(prefix[1..]);
      assert [Exactly(prefix[0])] + (Literals(prefix[1..]) + [AnyText]) == Literals(prefix) + [AnyText];
    }
  }

  lemma {:induction false} LiteralText(pattern: string)
    requires Items(pattern).Some? && Items(pattern).value != []
    requires var items := Items(pattern).value;
             items[|items| - 1].AnyText? && forall k :: 0 <= k < |items| - 1 ==> items[k].Exactly?
    ensures pattern != "" && pattern[|pattern| - 1] == '*' && |pattern| == |Items(pattern).value|
    ensures forall k :: 0 <= k < |pattern| - 1 ==>
            pattern[k] !in {'*', '?', '['} && Items(pattern).value[k] == Exactly(pattern[k])
  {
    var items := Items(pattern).value;
    assert items[0].Exactly? || items[0].AnyText?;
    assert pattern[0] != '[';
    assert items[1..] == Items(pattern[1..]).value;
    if |items| > 1 {
      LiteralText(pattern[1..]);
      forall k | 0 <= k < |pattern| - 1
        ensures pattern[k] !in {'*', '?', '['} && items[k] == Exactly(pattern[k])
      {
        if k > 0 { assert pattern[1..][k - 1] == pattern[k] && items[1..][k - 1] == items[k]; }
      }
    }
  }

  /** The optimizer derives bounds from a pattern exactly when it reads so. */
  lemma PrefixBoundsIff(pattern: string)
    ensures PrefixBounds(pattern).Some? <==> Items(pattern).Some? && LiteralThenAny(Items(pattern).value)
  {
    if PrefixBounds(pattern).Some? {
      var prefix := pattern[..|pattern| - 1];
      assert pattern == prefix + "*";
      LiteralItems(prefix);
      assert forall k :: 0 <= k < |prefix| ==> prefix[k] in prefix;
    }
    if Items(pattern).Some? && LiteralThenAny(Items(pattern).value) {
      LiteralText(pattern);
      var prefix := pattern[..|pattern| - 1];
      assert forall k :: 0 <= k < |prefix| ==> prefix[k] == pattern[k];
    }
  }
}
