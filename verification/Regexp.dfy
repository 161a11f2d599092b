/** The REGEXP matcher: a backtracking matcher for atoms, classes, `*`, `^` and `$`,
    and the language it decides. */
module Regexp {
  import opened Common

  // ----- Atoms -------------------------------------------------------------

  /** A class read from `cursor`: the verdict on `value` and the index after the closing bracket. */
  function ClassFrom(pattern: string, cursor: nat, matched: bool, sawMember: bool, negated: bool,
      value: char): (r: Result<(bool, nat)>)
    ensures r.Ok? ==> cursor < r.value.1 <= |pattern|
    decreases |pattern| - cursor
  {
    if cursor >= |pattern| then Err(Malformed)
    else if pattern[cursor] == ']' && sawMember then Ok((matched != negated, cursor + 1))
    else if cursor + 2 < |pattern| && pattern[cursor + 1] == '-' && pattern[cursor + 2] != ']' then
      ClassFrom(pattern, cursor + 3, matched || pattern[cursor] <= value <= pattern[cursor + 2], true, negated, value)
    else
      ClassFrom(pattern, cursor + 1, matched || pattern[cursor] == value, true, negated, value)
  }

  /** `regexp_atom_matches`: does the atom at `index` accept `value`, and where does it end? */
  function Atom(pattern: string, index: nat, value: char): (r: Result<(bool, nat)>)
    requires index < |pattern|
    ensures r.Ok? ==> index < r.value.1 <= |pattern|
  {
    if pattern[index] == '.' then Ok((true, index + 1))
    else if pattern[index] != '[' then Ok((pattern[index] == value, index + 1))
    else
      var negated := index + 1 < |pattern| && pattern[index + 1] == '^';
      ClassFrom(pattern, if negated then index + 2 else index + 1, false, false, negated, value)
  }

  /** The scanning loop of `regexp_atom_matches`. */
  method ScanAtom(pattern: string, index: nat, value: char) returns (r: Result<(bool, nat)>)
    requires index < |pattern|
    ensures r == Atom(pattern, index, value)
  {
    if pattern[index] == '.' {
      return Ok((true, index + 1));
    }
    if pattern[index] != '[' {
      return Ok((pattern[index] == value, index + 1));
    }
    var cursor := index + 1;
    var negated := cursor < |pattern| && pattern[cursor] == '^';
    if negated {
      cursor := cursor + 1;
    }
    var matched, sawMember := false, false;
    while cursor < |pattern|
      invariant ClassFrom(pattern, cursor, matched, sawMember, negated, value) == Atom(pattern, index, value)
      decreases |pattern| - cursor
    {
      if pattern[cursor] == ']' && sawMember {
        return Ok((matched != negated, cursor + 1));
      }
      if cursor + 2 < |pattern| && pattern[cursor + 1] == '-' && pattern[cursor + 2] != ']' {
        if pattern[cursor] <= value && value <= pattern[cursor + 2] {
          matched := true;
        }
        cursor := cursor + 3;
        sawMember := true;
        continue;
      }
      if pattern[cursor] == value {
        matched := true;
      }
      cursor := cursor + 1;
      sawMember := true;
    }
    r := Err(Malformed);
  }

  /** A member of a class: one character or a span of characters. */
  datatype Member = Single(value: char) | Span(low: char, high: char)

  predicate Covers(m: Member, c: char) {
    match m
    case Single(x) => c == x
    case Span(low, high) => low <= c <= high
  }

  /** The members written from `cursor` up to the closing bracket, which cannot come first, and the index
      after it. */
  function Members(pattern: string, cursor: nat, sawMember: bool): (r: Result<(seq<Member>, nat)>)
    decreases |pattern| - cursor
  {
    if cursor >= |pattern| then Err(Malformed)
    else if pattern[cursor] == ']' && sawMember then Ok(([], cursor + 1))
    else
      var span := cursor + 2 < |pattern| && pattern[cursor + 1] == '-' && pattern[cursor + 2] != ']';
      var m := if span then Span(pattern[cursor], pattern[cursor + 2]) else Single(pattern[cursor]);
      match Members(pattern, if span then cursor + 3 else cursor + 1, true)
      case Err(e) => Err(e)
      case Ok((rest, end)) => Ok(([m] + rest, end))
  }

  /** A class accepts a character when one of its members covers it, or none does when it is negated. */
  lemma {:induction false} ClassIs(pattern: string, cursor: nat, matched: bool, saw: bool, negated: bool, c: char)
    ensures ClassFrom(pattern, cursor, matched, saw, negated, c) ==
            match Members(pattern, cursor, saw)
            case Err(e) => Err(e)
            case Ok((members, end)) => Ok(((matched || exists m :: m in members && Covers(m, c)) != negated, end))
    decreases |pattern| - cursor
  {
    if cursor < |pattern| && !(pattern[cursor] == ']' && saw) {
      var span := cursor + 2 < |pattern| && pattern[cursor + 1] == '-' && pattern[cursor + 2] != ']';
      var m := if span then Span(pattern[cursor], pattern[cursor + 2]) else Single(pattern[cursor]);
      var next := if span then cursor + 3 else cursor + 1;
      ClassIs(pattern, next, matched || Covers(m, c), true, negated, c);
      if Members(pattern, next, true).Ok? {
        var rest := Members(pattern, next, true).value.0;
        assert forall x :: x in [m] + rest <==> x == m || x in rest;
      }
    }
  }

  /** What an atom of a pattern accepts: `.` any character, a class what its members say, any other
      character itself. */
  lemma AcceptsIff(pattern: string, index: nat, c: char)
    requires index < |pattern|
    ensures Accepts(pattern, index, c) <==>
            if pattern[index] == '.' then true
            else if pattern[index] != '[' then c == pattern[index]
            else
              var negated := index + 1 < |pattern| && pattern[index + 1] == '^';
              var r := Members(pattern, if negated then index + 2 else index + 1, false);
              r.Ok? && ((exists m :: m in r.value.0 && Covers(m, c)) != negated)
  {
    if pattern[index] == '[' {
      var negated := index + 1 < |pattern| && pattern[index + 1] == '^';
      ClassIs(pattern, if negated then index + 2 else index + 1, false, false, negated, c);
    }
  }

  lemma {:induction false} ClassEndIndependent(pattern: string, cursor: nat, m: bool, m': bool, saw: bool,
      negated: bool, c: char, c': char)
    ensures var r, r' := ClassFrom(pattern, cursor, m, saw, negated, c),
            ClassFrom(pattern, cursor, m', saw, negated, c');
            r.Ok? == r'.Ok? && (r.Ok? ==> r.value.1 == r'.value.1)
    decreases |pattern| - cursor
  {
    if cursor >= |pattern| {
    } else if pattern[cursor] == ']' && saw {
    } else if cursor + 2 < |pattern| && pattern[cursor + 1] == '-' && pattern[cursor + 2] != ']' {
      ClassEndIndependent(pattern, cursor + 3, m || pattern[cursor] <= c <= pattern[cursor + 2],
        m' || pattern[cursor] <= c' <= pattern[cursor + 2], true, negated, c, c');
    } else {
      ClassEndIndependent(pattern, cursor + 1, m || pattern[cursor] == c, m' ||
          pattern[cursor] == c', true, negated, c, c');
    }
  }

  /** Where an atom ends does not depend on the character it is tried on. */
  lemma AtomEndIndependent(pattern: string, index: nat, c: char, c': char)
    requires index < |pattern|
    ensures Atom(pattern, index, c).Ok? == Atom(pattern, index, c').Ok?
    ensures Atom(pattern, index, c).Ok? ==> Atom(pattern, index, c).value.1 == Atom(pattern, index, c').value.1
  {
    if pattern[index] == '[' {
      var negated := index + 1 < |pattern| && pattern[index + 1] == '^';
      ClassEndIndependent(pattern, if negated then index + 2 else index + 1, false, false, false, negated, c, c');
    }
  }

  predicate Accepts(pattern: string, index: nat, c: char) {
    index < |pattern| && Atom(pattern, index, c).Ok? && Atom(pattern, index, c).value.0
  }

  // ----- The matcher -------------------------------------------------------

  /** `regexp_match_here`: some prefix of `value[v..]` matches the pattern from `p`. */
  function MatchHere(pattern: string, p: nat, value: string, v: nat): Result<bool>
    requires p <= |pattern| && v <= |value|
    decreases |pattern| - p, |value| - v, 1
  {
    if p == |pattern| then Ok(true)
    else if pattern[p] == '$' && p + 1 == |pattern| then Ok(v == |value|)
    else match Atom(pattern, p, '\0')
      case Err(e) => Err(e)
      case Ok((_, next)) =>
        if next < |pattern| && pattern[next] == '*' then MatchStar(pattern, p, next + 1, value, v)
        else if v >= |value| then Ok(false)
        else match Atom(pattern, p, value[v])
          case Err(e) => Err(e)
          case Ok((matches, next')) =>
            if matches then MatchHere(pattern, next', value, v + 1) else Ok(false)
  }

  /** `regexp_match_star`: the rest matches here, or after one more accepted character, and so on. */
  function MatchStar(pattern: string, atom: nat, rest: nat, value: string, v: nat): Result<bool>
    requires atom < rest <= |pattern| && v <= |value|
    decreases |pattern| - atom, |value| - v, 0
  {
    match MatchHere(pattern, rest, value, v)
    case Err(e) => Err(e)
    case Ok(true) => Ok(true)
    case Ok(false) =>
      if v >= |value| then Ok(false)
      else match Atom(pattern, atom, value[v])
        case Err(e) => Err(e)
        case Ok((matches, _)) => if matches then MatchStar(pattern, atom, rest, value, v + 1) else Ok(false)
  }

  /** The two mutually recursive functions as written, the star case looping over `v`. */
  method RunMatchHere(pattern: string, p: nat, value: string, v: nat) returns (r: Result<bool>)
    requires p <= |pattern| && v <= |value|
    ensures r == MatchHere(pattern, p, value, v)
    decreases |pattern| - p, 1
  {
    if p == |pattern| {
      return Ok(true);
    }
    if pattern[p] == '$' && p + 1 == |pattern| {
      return Ok(v == |value|);
    }
    var first := ScanAtom(pattern, p, '\0');
    if first.Err? {
      return Err(first.error);
    }
    var next := first.value.1;
    if next < |pattern| && pattern[next] == '*' {
      r := RunMatchStar(pattern, p, next + 1, value, v);
      return;
    }
    if v >= |value| {
      return Ok(false);
    }
    var atom := ScanAtom(pattern, p, value[v]);
    if atom.Err? {
      return Err(atom.error);
    }
    if atom.value.0 {
      r := RunMatchHere(pattern, atom.value.1, value, v + 1);
    } else {
      r := Ok(false);
    }
  }

  method RunMatchStar(pattern: string, atom: nat, rest: nat, value: string, start: nat) returns (r: Result<bool>)
    requires atom < rest <= |pattern| && start <= |value|
    ensures r == MatchStar(pattern, atom, rest, value, start)
    decreases |pattern| - atom, 0
  {
    var v := start;
    r := RunMatchHere(pattern, rest, value, v);
    if r.Err? || r.value {
      return;
    }
    while v < |value|
      invariant v <= |value|
      invariant MatchHere(pattern, rest, value, v) == Ok(false)
      invariant MatchStar(pattern, atom, rest, value, v) == MatchStar(pattern, atom, rest, value, start)
      decreases |value| - v
    {
      var step := ScanAtom(pattern, atom, value[v]);
      if step.Err? {
        return Err(step.error);
      }
      if !step.value.0 {
        break;
      }
      v := v + 1;
      r := RunMatchHere(pattern, rest, value, v);
      if r.Err? || r.value {
        return;
      }
    }
    r := Ok(false);
  }

  /** The first index from `i` on at which the pattern matches, as the search loop finds it. */
  function SearchFrom(pattern: string, value: string, i: nat): Result<bool>
    requires i <= |value| + 1
    decreases |value| + 1 - i
  {
    if i > |value| then Ok(false)
    else match MatchHere(pattern, 0, value, i)
      case Err(e) => Err(e)
      case Ok(true) => Ok(true)
      case Ok(false) => SearchFrom(pattern, value, i + 1)
  }

  /** Text up to the first NUL, which is all the matcher sees. */
  function BeforeNul(value: string): (r: string)
    ensures r <= value && '\0' !in r
    ensures r == value || value[|r|] == '\0'
  {
    if value == "" || value[0] == '\0' then "" else
      var rest := BeforeNul(value[1..]);
      assert value == [value[0]] + value[1..];
      [value[0]] + rest
  }

  /** `sqlite_check_regexp`. */
  function Search(pattern: string, value: string): Result<bool> {
    var text := BeforeNul(value);
    if pattern != "" && pattern[0] == '^' then MatchHere(pattern, 1, text, 0)
    else SearchFrom(pattern, text, 0)
  }

  method RunSearch(pattern: string, value: string) returns (r: Result<bool>)
    ensures r == Search(pattern, value)
  {
    var text := BeforeNul(value);
    if pattern != "" && pattern[0] == '^' {
      r := RunMatchHere(pattern, 1, text, 0);
      return;
    }
    for index := 0 to |text| + 1
      invariant SearchFrom(pattern, text, index) == SearchFrom(pattern, text, 0)
    {
      r := RunMatchHere(pattern, 0, text, index);
      if r.Err? || r.value {
        return;
      }
    }
    r := Ok(false);
  }

  // ----- The language ------------------------------------------------------

  /** A pattern read as a list: one atom (by its index), or a starred one. */
  datatype Item = One(atom: nat) | Star(atom: nat)

  datatype Shape = Shape(items: seq<Item>, toEnd: bool)

  /** The atoms and stars of the pattern from `p`, and whether a final `$` anchors it. */
  function ShapeFrom(pattern: string, p: nat): Result<Shape>
    requires p <= |pattern|
    decreases |pattern| - p
  {
    if p == |pattern| then Ok(Shape([], false))
    else if pattern[p] == '$' && p + 1 == |pattern| then Ok(Shape([], true))
    else match Atom(pattern, p, '\0')
      case Err(e) => Err(e)
      case Ok((_, next)) =>
        var starred := next < |pattern| && pattern[next] == '*';
        match ShapeFrom(pattern, if starred then next + 1 else next)
        case Err(e) => Err(e)
        case Ok(rest) => Ok(rest.(items := [if starred then Star(p) else One(p)] + rest.items))
  }

  ghost predicate AllAccepted(pattern: string, atom: nat, s: string) {
    forall i :: 0 <= i < |s| ==> Accepts(pattern, atom, s[i])
  }

  /** Membership of a whole text in the language of an item list. */
  ghost predicate InLanguage(pattern: string, items: seq<Item>, s: string)
    decreases |items|
  {
    if items == [] then s == ""
    else match items[0]
      case One(atom) => s != "" && Accepts(pattern, atom, s[0]) && InLanguage(pattern, items[1..], s[1..])
      case Star(atom) =>
          exists k :: 0 <= k <= |s| && AllAccepted(pattern, atom, s[..k]) && InLanguage(pattern, items[1..], s[k..])
  }

  /** `value[v..e]` is a word of the shape, reaching the end when the shape is anchored there. */
  ghost predicate WordAt(pattern: string, shape: Shape, value: string, v: nat, e: nat) {
    v <= e <= |value| && InLanguage(pattern, shape.items, value[v..e]) && (shape.toEnd ==> e == |value|)
  }

  ghost predicate SomeWordAt(pattern: string, shape: Shape, value: string, v: nat) {
    exists e :: WordAt(pattern, shape, value, v, e)
  }

  /** One starred item: zero characters now, or one accepted character and the same again. */
  lemma StarUnfold(pattern: string, shape: Shape, value: string, v: nat)
    requires shape.items != [] && shape.items[0].Star? && v <= |value|
    ensures var rest := shape.(items := shape.items[1..]);
            SomeWordAt(pattern, shape, value, v) <==>
              SomeWordAt(pattern, rest, value, v) ||
              (v < |value| && Accepts(pattern, shape.items[0].atom, value[v]) &&
                  SomeWordAt(pattern, shape, value, v + 1))
  {
    var rest := shape.(items := shape.items[1..]);
    var atom := shape.items[0].atom;
    if SomeWordAt(pattern, shape, value, v) {
      var e: nat :| WordAt(pattern, shape, value, v, e);
      var s := value[v..e];
      var k :| 0 <= k <= |s| && AllAccepted(pattern, atom, s[..k]) && InLanguage(pattern, rest.items, s[k..]);
      if k == 0 {
        assert s[0..] == s;
        assert WordAt(pattern, rest, value, v, e);
      } else {
        assert s[..k][0] == value[v];
        var s' := value[v + 1..e];
        assert s'[..k - 1] == s[..k][1..] && s'[k - 1..] == s[k..];
        assert AllAccepted(pattern, atom, s'[..k - 1]);
        assert WordAt(pattern, shape, value, v + 1, e);
      }
    }
    if SomeWordAt(pattern, rest, value, v) {
      var e: nat :| WordAt(pattern, rest, value, v, e);
      var s := value[v..e];
      assert s[0..] == s && AllAccepted(pattern, atom, s[..0]);
      assert WordAt(pattern, shape, value, v, e);
    }
    if v < |value| && Accepts(pattern, atom, value[v]) && SomeWordAt(pattern, shape, value, v + 1) {
      var e: nat :| WordAt(pattern, shape, value, v + 1, e);
      var s', s := value[v + 1..e], value[v..e];
      var k :| 0 <= k <= |s'| && AllAccepted(pattern, atom, s'[..k]) && InLanguage(pattern, rest.items, s'[k..]);
      assert s == [value[v]] + s';
      assert s[k + 1..] == s'[k..] && s[..k + 1] == [value[v]] + s'[..k];
      assert AllAccepted(pattern, atom, s[..k + 1]);
      assert WordAt(pattern, shape, value, v, e);
    }
  }

  lemma OneUnfold(pattern: string, shape: Shape, value: string, v: nat)
    requires shape.items != [] && shape.items[0].One? && v <= |value|
    ensures var rest := shape.(items := shape.items[1..]);
            SomeWordAt(pattern, shape, value, v) <==>
              v < |value| && Accepts(pattern, shape.items[0].atom, value[v]) && SomeWordAt(pattern, rest, value, v + 1)
  {
    var rest := shape.(items := shape.items[1..]);
    if SomeWordAt(pattern, shape, value, v) {
      var e: nat :| WordAt(pattern, shape, value, v, e);
      assert value[v..e][1..] == value[v + 1..e];
      assert WordAt(pattern, rest, value, v + 1, e);
    }
    if v < |value| && Accepts(pattern, shape.items[0].atom, value[v]) && SomeWordAt(pattern, rest, value, v + 1) {
      var e: nat :| WordAt(pattern, rest, value, v + 1, e);
      assert value[v..e][1..] == value[v + 1..e];
      assert WordAt(pattern, shape, value, v, e);
    }
  }

  lemma EmptyShape(pattern: string, shape: Shape, value: string, v: nat)
    requires shape.items == [] && v <= |value|
    ensures SomeWordAt(pattern, shape, value, v) <==> (shape.toEnd ==> v == |value|)
  {
    assert value[v..v] == "";
    if shape.toEnd ==> v == |value| {
      assert WordAt(pattern, shape, value, v, v);
    }
  }

  /** On a closed pattern the matcher answers without error, and yes exactly for the words. */
  lemma {:induction false} MatchHereDecides(pattern: string, p: nat, value: string, v: nat)
    requires p <= |pattern| && v <= |value| && ShapeFrom(pattern, p).Ok?
    ensures MatchHere(pattern, p, value, v) == Ok(SomeWordAt(pattern, ShapeFrom(pattern, p).value, value, v))
    decreases |pattern| - p, |value| - v, 1
  {
    var shape := ShapeFrom(pattern, p).value;
    if p == |pattern| || (pattern[p] == '$' && p + 1 == |pattern|) {
      EmptyShape(pattern, shape, value, v);
    } else {
      var next := Atom(pattern, p, '\0').value.1;
      if next < |pattern| && pattern[next] == '*' {
        assert shape.items[0] == Star(p);
        MatchStarDecides(pattern, p, next + 1, value, v, shape);
      } else {
        var rest := ShapeFrom(pattern, next).value;
        assert shape == rest.(items := [One(p)] + rest.items);
        assert rest == shape.(items := shape.items[1..]);
        OneUnfold(pattern, shape, value, v);
        if v < |value| {
          AtomEndIndependent(pattern, p, '\0', value[v]);
          MatchHereDecides(pattern, next, value, v + 1);
        }
      }
    }
  }

  lemma {:induction false} MatchStarDecides(pattern: string, atom: nat, rest: nat, value: string, v: nat, shape: Shape)
    requires atom < rest <= |pattern| && v <= |value|
    requires Atom(pattern, atom, '\0').Ok?
    requires ShapeFrom(pattern, rest).Ok?
    requires shape == ShapeFrom(pattern, rest).value.(items := [Star(atom)] + ShapeFrom(pattern, rest).value.items)
    ensures MatchStar(pattern, atom, rest, value, v) == Ok(SomeWordAt(pattern, shape, value, v))
    decreases |pattern| - atom, |value| - v, 0
  {
    assert ShapeFrom(pattern, rest).value == shape.(items := shape.items[1..]);
    StarUnfold(pattern, shape, value, v);
    MatchHereDecides(pattern, rest, value, v);
    if v < |value| {
      AtomEndIndependent(pattern, atom, '\0', value[v]);
      MatchStarDecides(pattern, atom, rest, value, v + 1, shape);
    }
  }

  ghost predicate SomeWordFrom(pattern: string, shape: Shape, value: string, i: nat) {
    exists v: nat :: i <= v <= |value| && SomeWordAt(pattern, shape, value, v)
  }

  lemma {:induction false} SearchFromDecides(pattern: string, value: string, i: nat)
    requires i <= |value| + 1 && ShapeFrom(pattern, 0).Ok?
    ensures SearchFrom(pattern, value, i) ==
            Ok(SomeWordFrom(pattern, ShapeFrom(pattern, 0).value, value, i))
    decreases |value| + 1 - i
  {
    if i <= |value| {
      MatchHereDecides(pattern, 0, value, i);
      SearchFromDecides(pattern, value, i + 1);
    }
  }

  predicate AnchoredAtStart(pattern: string) { pattern != "" && pattern[0] == '^' }

  /** The shape of a whole pattern, a leading `^` set aside; Ok exactly when every class is closed. */
  function PatternShape(pattern: string): Result<Shape> {
    ShapeFrom(pattern, if AnchoredAtStart(pattern) then 1 else 0)
  }

  ghost predicate SomeMatch(pattern: string, shape: Shape, text: string) {
    exists v: nat :: v <= |text| && (AnchoredAtStart(pattern) ==> v == 0) && SomeWordAt(pattern, shape, text, v)
  }

  /** For every pattern whose classes are closed and every value, `sqlite_check_regexp` succeeds, and
      says yes iff some substring of the NUL-free front of the value is a word of the pattern,
      starting at the beginning under `^` and reaching the end under a final `$`. */
  lemma SearchDecides(pattern: string, value: string)
    requires PatternShape(pattern).Ok?
    ensures var text, shape := BeforeNul(value), PatternShape(pattern).value;
            Search(pattern, value) ==
              Ok(SomeMatch(pattern, shape, text))
  {
    var text := BeforeNul(value);
    if AnchoredAtStart(pattern) {
      MatchHereDecides(pattern, 1, text, 0);
      var shape := PatternShape(pattern).value;
      if SomeWordAt(pattern, shape, text, 0) {
        assert SomeMatch(pattern, shape, text);
      }
    } else {
      SearchFromDecides(pattern, text, 0);
    }
  }
}
