/** Which names an SQL text mentions. */
module Mentioned {
  import opened Common
  import opened Schemas

  predicate InWord(c: char) { StartsWord(c) || '0' <= c <= '9' }

  /** No letter or underscore runs into the position: only digits, back to something that is in no word. */
  predicate Free(text: string, i: nat)
    requires i <= |text|
    decreases i
  {
    i == 0 || !InWord(text[i - 1]) || (!StartsWord(text[i - 1]) && Free(text, i - 1))
  }

  /** A word of the text: letters, digits and underscores up to the end of their run, from its first letter
      or underscore on. */
  predicate IsWord(text: string, i: nat, j: nat) {
    i < j <= |text| && StartsWord(text[i]) && Free(text, i) && (forall k :: i < k < j ==> InWord(text[k])) &&
    (j < |text| ==> !InWord(text[j]))
  }

  lemma {:induction false} PrefixIs(s: string)
    ensures var n := WordPrefix(s); (forall k :: 0 <= k < n ==> InWord(s[k])) && (n < |s| ==> !InWord(s[n]))
  {
    if s != "" && InWord(s[0]) {
      PrefixIs(s[1..]);
      var n := WordPrefix(s);
      forall k | 0 <= k < n ensures InWord(s[k]) { if k > 0 { assert s[k] == s[1..][k - 1]; } }
      if n < |s| { assert s[n] == s[1..][n - 1]; }
    }
  }

  lemma {:induction false} InsideIsNotFree(text: string, p: nat, i: nat)
    requires p < i <= |text| && StartsWord(text[p]) && forall k :: p < k < i ==> InWord(text[k])
    ensures !Free(text, i)
    decreases i
  {
    if p + 1 < i { InsideIsNotFree(text, p, i - 1); }
  }

  ghost predicate NamedFrom(text: string, p: nat, name: string) {
    exists i: nat, j: nat :: p <= i && IsWord(text, i, j) && SameName(text[i..j], name)
  }

  lemma {:induction false} MentionsFrom(text: string, p: nat, name: string)
    requires p <= |text| && (Free(text, p) || p == |text| || !InWord(text[p]))
    ensures Mentions(text[p..], name) <==> NamedFrom(text, p, name)
    decreases |text| - p
  {
    if p < |text| {
      var rest := text[p..];
      if !StartsWord(text[p]) {
        assert rest[1..] == text[p + 1..];
        MentionsFrom(text, p + 1, name);
      } else {
        var e := p + WordPrefix(rest);
        PrefixIs(rest);
        assert forall k :: p <= k < e ==> text[k] == rest[k - p];
        assert e < |text| ==> text[e] == rest[e - p];
        assert rest[WordPrefix(rest)..] == text[e..] && rest[..WordPrefix(rest)] == text[p..e];
        assert IsWord(text, p, e);
        MentionsFrom(text, e, name);
        forall i: nat, j: nat | p <= i && IsWord(text, i, j) ensures i >= e || (i == p && j == e) {
          if p < i < e { InsideIsNotFree(text, p, i); }
        }
      }
    }
  }

  /** A text mentions a name exactly when one of its words is the name, whatever the case. */
  lemma MentionsIff(text: string, name: string)
    ensures Mentions(text, name) <==> exists i: nat, j: nat :: IsWord(text, i, j) && SameName(text[i..j], name)
  {
    assert text[0..] == text;
    MentionsFrom(text, 0, name);
  }
}
