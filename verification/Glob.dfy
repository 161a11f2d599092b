/** The GLOB matcher. */
module Glob {
  import opened Common

  /** What a character class says about `ch`, reading from `index` with `matched` so far;
      None when the class is never closed, otherwise the verdict and the position after `]`. */
  function ClassFrom(pattern: string, index: nat, matched: bool, negated: bool, ch: char): (r: Option<(bool, nat)>)
    ensures r.Some? ==> index < r.value.1 <= |pattern|
    decreases |pattern| - index
  {
    if index >= |pattern| then None
    else if pattern[index] == ']' then Some((matched != negated, index + 1))
    else if index + 2 < |pattern| && pattern[index + 1] == '-' && pattern[index + 2] != ']' then
      ClassFrom(pattern, index + 3, matched || pattern[index] <= ch <= pattern[index + 2], negated, ch)
    else
      ClassFrom(pattern, index + 1, matched || pattern[index] == ch, negated, ch)
  }

  predicate Negated(pattern: string, start: nat) {
    start + 1 < |pattern| && pattern[start + 1] == '^'
  }

  /** The class that opens at `start`. */
  function MatchesCharClass(pattern: string, start: nat, ch: char): (r: Option<(bool, nat)>)
    ensures r.Some? ==> start < r.value.1 <= |pattern|
  {
    var negated := Negated(pattern, start);
    ClassFrom(pattern, if negated then start + 2 else start + 1, false, negated, ch)
  }

  /** The scanning loop of `matches_char_class`, proved against the recursive reading above. */
  method ScanCharClass(pattern: string, start: nat, ch: char) returns (r: Option<(bool, nat)>)
    ensures r == MatchesCharClass(pattern, start, ch)
  {
    var index := start + 1;
    var negated := index < |pattern| && pattern[index] == '^';
    if negated {
      index := index + 1;
    }
    var matched := false;
    while index < |pattern|
      invariant ClassFrom(pattern, index, matched, negated, ch) == MatchesCharClass(pattern, start, ch)
      decreases |pattern| - index
    {
      if pattern[index] == ']' {
        return Some((matched != negated, index + 1));
      }
      if index + 2 < |pattern| && pattern[index + 1] == '-' && pattern[index + 2] != ']' {
        if pattern[index] <= ch && ch <= pattern[index + 2] {
          matched := true;
        }
        index := index + 3;
      } else {
        if pattern[index] == ch {
          matched := true;
        }
        index := index + 1;
      }
    }
    r := None;
  }

  /** `matches_glob_pattern`: the whole value against the whole pattern. */
  predicate Matches(value: string, pattern: string)
    decreases |pattern| + |value|
  {
    if pattern == "" then value == ""
    else match pattern[0]
      case '*' => Matches(value, pattern[1..]) || (value != "" && Matches(value[1..], pattern))
      case '?' => value != "" && Matches(value[1..], pattern[1..])
      case '[' =>
        if value == "" then false
        else (match MatchesCharClass(pattern, 0, value[0])
          case None => false
          case Some((matched, next)) => matched && Matches(value[1..], pattern[next..]))
      case c => value != "" && value[0] == c && Matches(value[1..], pattern[1..])
  }

  predicate IsAscii(s: string) { forall c :: c in s ==> c as int < 128 }

  /** `prefix_glob_bounds` of the optimizer: the half-open range of texts a pattern `prefix*` selects. */
  function PrefixBounds(pattern: string): Option<(string, string)> {
    if pattern == "" || pattern[|pattern| - 1] != '*' then None
    else
      var prefix := pattern[..|pattern| - 1];
      if prefix == "" || '*' in prefix || '?' in prefix || '[' in prefix || !IsAscii(prefix) then None
      else
        assert prefix[|prefix| - 1] in prefix;
        var last := prefix[|prefix| - 1] as int;
        // The bound is rebuilt from bytes: 0x7f + 1 is not valid UTF-8.
        if last == 127 then None
        else Some((prefix, prefix[..|prefix| - 1] + [(last + 1) as char]))
  }

  lemma {:induction false} StarMatchesAnything(value: string)
    ensures Matches(value, "*")
  {
    if value == "" {
      assert Matches("", "*"[1..]);
    } else {
      StarMatchesAnything(value[1..]);
    }
  }

  /** A literal prefix followed by `*` matches exactly the texts that start with it. */
  lemma {:induction false} LiteralPrefixMatches(value: string, prefix: string)
    requires '*' !in prefix && '?' !in prefix && '[' !in prefix
    ensures Matches(value, prefix + "*") <==> prefix <= value
  {
    var pattern := prefix + "*";
    if prefix == "" {
      assert pattern == "*";
      StarMatchesAnything(value);
    } else {
      assert pattern[0] == prefix[0] && pattern[0] in prefix;
      assert pattern[1..] == prefix[1..] + "*";
      if value != "" && value[0] == prefix[0] {
        assert forall c :: c in prefix[1..] ==> c in prefix;
        LiteralPrefixMatches(value[1..], prefix[1..]);
        assert value == [value[0]] + value[1..] && prefix == [prefix[0]] + prefix[1..];
        if prefix <= value { assert prefix[1..] <= value[1..]; }
      }
    }
  }

  /** Starting with `prefix` is lying between `prefix` and its successor in text order. */
  lemma {:induction false} PrefixIsInterval(value: string, prefix: string)
    requires prefix != "" && prefix[|prefix| - 1] as int < 127
    ensures var upper := prefix[..|prefix| - 1] + [(prefix[|prefix| - 1] as int + 1) as char];
            prefix <= value <==> CompareText(value, prefix) != Less && CompareText(value, upper) == Less
  {
    var last := prefix[|prefix| - 1];
    var upper := prefix[..|prefix| - 1] + [(last as int + 1) as char];
    if |prefix| == 1 {
      assert prefix[..0] == [];
      assert upper == [(last as int + 1) as char];
      if value != "" {
        assert prefix <= value <==> value[0] == prefix[0];
        assert CompareText(value[1..], "") != Less;
      }
    } else {
      assert upper[0] == prefix[0];
      assert upper[1..] == prefix[1..][..|prefix[1..]| - 1] + [(last as int + 1) as char];
      if value != "" && value[0] == prefix[0] {
        PrefixIsInterval(value[1..], prefix[1..]);
        assert prefix <= value <==> prefix[1..] <= value[1..] by {
          if prefix[1..] <= value[1..] {
            assert value == [value[0]] + value[1..] && prefix == [prefix[0]] + prefix[1..];
          }
        }
      }
    }
  }

  /** Whenever the optimizer derives bounds from a pattern, the pattern's texts are exactly the
      texts inside the bounds, so replacing the match by the range loses and adds nothing. */
  lemma PrefixBoundsExact(value: string, pattern: string)
    requires PrefixBounds(pattern).Some?
    ensures var (lo, hi) := PrefixBounds(pattern).value;
            Matches(value, pattern) <==> CompareText(value, lo) != Less && CompareText(value, hi) == Less
  {
    var prefix := pattern[..|pattern| - 1];
    assert pattern == prefix + "*";
    LiteralPrefixMatches(value, prefix);
    assert prefix[|prefix| - 1] in prefix;
    PrefixIsInterval(value, prefix);
  }
}
