/** Splitting a conjunction into branches: IN lists into equalities, an OR into its alternatives. */
module Expansion {
  import opened Common
  import opened Values
  import opened CheckExprs
  import opened Schemas
  import opened Filters

  const MAX_BRANCHES := 16

  type Truth = Option<bool>

  // ----- Lists of truth values ---------------------------------------------

  function Conj(vals: seq<Truth>): Truth {
    if vals == [] then Some(true) else KleeneAnd(vals[0], Conj(vals[1..]))
  }

  function Disj(vals: seq<Truth>): Truth {
    if vals == [] then Some(false) else KleeneOr(vals[0], Disj(vals[1..]))
  }

  lemma {:induction false} ConjAppend(a: seq<Truth>, b: seq<Truth>)
    ensures Conj(a + b) == KleeneAnd(Conj(a), Conj(b))
  {
    if a == [] {
      assert a + b == b;
    } else {
      assert (a + b)[1..] == a[1..] + b;
      ConjAppend(a[1..], b);
    }
  }

  lemma ConjSingle(vals: seq<Truth>)
    requires |vals| == 1
    ensures Conj(vals) == vals[0]
  {
    assert vals[1..] == [];
    match vals[0]
    case None =>
    case Some(b) => if b {} else {}
  }

  lemma {:induction false} DisjAppend(a: seq<Truth>, b: seq<Truth>)
    ensures Disj(a + b) == KleeneOr(Disj(a), Disj(b))
  {
    if a == [] {
      assert a + b == b;
    } else {
      assert (a + b)[1..] == a[1..] + b;
      DisjAppend(a[1..], b);
    }
  }

  /** AND distributes over a list of alternatives. */
  lemma {:induction false} AndOverDisj(p: Truth, q: Truth, vals: seq<Truth>)
    requires vals != []
    ensures KleeneAnd(p, KleeneAnd(Disj(vals), q)) == Disj(Around(p, q, vals))
  {
    var around := Around(p, q, vals);
    if |vals| == 1 {
      assert vals[1..] == [] && around[1..] == [];
    } else {
      AndOverDisj(p, q, vals[1..]);
      assert around[1..] == Around(p, q, vals[1..]);
    }
  }

  function Around(p: Truth, q: Truth, vals: seq<Truth>): (r: seq<Truth>)
    ensures |r| == |vals|
  {
    seq(|vals|, i requires 0 <= i < |vals| => KleeneAnd(p, KleeneAnd(vals[i], q)))
  }

  lemma ConjAt(vals: seq<Truth>, i: nat)
    requires i < |vals|
    ensures Conj(vals) == KleeneAnd(Conj(vals[..i]), KleeneAnd(vals[i], Conj(vals[i + 1..])))
  {
    assert vals == vals[..i] + ([vals[i]] + vals[i + 1..]);
    ConjAppend(vals[..i], [vals[i]] + vals[i + 1..]);
    ConjAppend([vals[i]], vals[i + 1..]);
    assert [vals[i]][1..] == [];
  }

  // ----- Terms and branches ------------------------------------------------

  /** `collect_and_terms`. */
  function AndTerms(e: Expr): (terms: seq<Expr>)
    ensures terms != []
  {
    match e
    case And(l, r) => AndTerms(l) + AndTerms(r)
    case _ => [e]
  }

  /** `collect_or_branches`. */
  function OrBranches(e: Expr): (branches: seq<Expr>)
    ensures branches != []
  {
    match e
    case Or(l, r) => OrBranches(l) + OrBranches(r)
    case _ => [e]
  }

  /** `rebuild_and_expr`: a left-leaning conjunction. */
  function RebuildAnd(terms: seq<Expr>): Expr
    requires terms != []
  {
    if |terms| == 1 then terms[0] else Expr.And(RebuildAnd(terms[..|terms| - 1]), terms[|terms| - 1])
  }

  /** The fold of `rebuild_and_expr`. */
  method FoldAnd(terms: seq<Expr>) returns (e: Expr)
    requires terms != []
    ensures e == RebuildAnd(terms)
  {
    e := terms[0];
    for i := 1 to |terms|
      invariant e == RebuildAnd(terms[..i])
    {
      assert terms[..i + 1][..i] == terms[..i];
      e := Expr.And(e, terms[i]);
    }
    assert terms[..|terms|] == terms;
  }

  function Vals(mode: Mode, env: Env, schema: Schema, es: seq<Expr>, row: Row): (r: seq<Truth>)
    ensures |r| == |es|
  {
    seq(|es|, i requires 0 <= i < |es| => Eval(mode, env, schema, es[i], row))
  }

  lemma ValsConcat(mode: Mode, env: Env, schema: Schema, a: seq<Expr>, b: seq<Expr>, row: Row)
    ensures Vals(mode, env, schema, a + b, row) == Vals(mode, env, schema, a, row) + Vals(mode, env, schema, b, row)
  {
  }

  lemma {:induction false} AndTermsMean(mode: Mode, env: Env, schema: Schema, e: Expr, row: Row)
    ensures Conj(Vals(mode, env, schema, AndTerms(e), row)) == Eval(mode, env, schema, e, row)
  {
    match e
    case And(l, r) =>
      AndTermsMean(mode, env, schema, l, row);
      AndTermsMean(mode, env, schema, r, row);
      ValsConcat(mode, env, schema, AndTerms(l), AndTerms(r), row);
      ConjAppend(Vals(mode, env, schema, AndTerms(l), row), Vals(mode, env, schema, AndTerms(r), row));
    case _ =>
      assert Vals(mode, env, schema, [e], row)[1..] == [];
  }

  lemma {:induction false} OrBranchesMean(mode: Mode, env: Env, schema: Schema, e: Expr, row: Row)
    ensures Disj(Vals(mode, env, schema, OrBranches(e), row)) == Eval(mode, env, schema, e, row)
  {
    match e
    case Or(l, r) =>
      OrBranchesMean(mode, env, schema, l, row);
      OrBranchesMean(mode, env, schema, r, row);
      ValsConcat(mode, env, schema, OrBranches(l), OrBranches(r), row);
      DisjAppend(Vals(mode, env, schema, OrBranches(l), row), Vals(mode, env, schema, OrBranches(r), row));
    case _ =>
      assert Vals(mode, env, schema, [e], row)[1..] == [];
  }

  lemma {:induction false} RebuildMeans(mode: Mode, env: Env, schema: Schema, terms: seq<Expr>, row: Row)
    requires terms != []
    ensures Eval(mode, env, schema, RebuildAnd(terms), row) == Conj(Vals(mode, env, schema, terms, row))
  {
    var vals, n := Vals(mode, env, schema, terms, row), |terms| - 1;
    if n == 0 {
      ConjSingle(vals);
    } else {
      RebuildMeans(mode, env, schema, terms[..n], row);
      assert vals == Vals(mode, env, schema, terms[..n], row) + [vals[n]];
      ConjAppend(Vals(mode, env, schema, terms[..n], row), [vals[n]]);
      ConjSingle([vals[n]]);
    }
  }

  // ----- Replacing terms ---------------------------------------------------

  /** A term position and the alternatives that replace the term. */
  datatype Choice = Choice(index: nat, options: seq<Expr>)

  /** One list of terms per option. */
  function Substitute(terms: seq<Expr>, c: Choice): (r: seq<seq<Expr>>)
    requires c.index < |terms|
    ensures |r| == |c.options| && forall j :: 0 <= j < |r| ==> r[j] == terms[c.index := c.options[j]]
  {
    seq(|c.options|, j requires 0 <= j < |c.options| => terms[c.index := c.options[j]])
  }

  ghost predicate SameWidth(lists: seq<seq<Expr>>, n: nat) { forall l :: l in lists ==> |l| == n }

  /** One round of the expansion loop: every list split along one choice. */
  function SplitAll(lists: seq<seq<Expr>>, c: Choice): (r: seq<seq<Expr>>)
    requires forall l :: l in lists ==> c.index < |l|
  {
    if lists == [] then [] else Substitute(lists[0], c) + SplitAll(lists[1..], c)
  }

  lemma {:induction false} SplitAllCount(lists: seq<seq<Expr>>, c: Choice)
    requires forall l :: l in lists ==> c.index < |l|
    ensures |SplitAll(lists, c)| == |lists| * |c.options|
  {
    if lists != [] {
      assert lists[0] in lists;
      SplitAllCount(lists[1..], c);
      Distribute(|lists|, |c.options|);
    }
  }

  lemma Distribute(a: nat, b: nat)
    requires a > 0
    ensures a * b == b + (a - 1) * b
  {
  }

  lemma {:induction false} SplitAllWidth(lists: seq<seq<Expr>>, c: Choice, n: nat)
    requires SameWidth(lists, n) && c.index < n
    ensures SameWidth(SplitAll(lists, c), n)
  {
    if lists != [] {
      assert lists[0] in lists;
      SplitAllWidth(lists[1..], c, n);
    }
  }

  /** The expansion over all choices, in order. */
  function SplitAlong(lists: seq<seq<Expr>>, choices: seq<Choice>, width: nat): (r: seq<seq<Expr>>)
    requires SameWidth(lists, width) && forall c :: c in choices ==> c.index < width
    ensures SameWidth(r, width) && |r| == |lists| * Product(choices)
    decreases |choices|
  {
    if choices == [] then lists
    else
      assert choices[0] in choices;
      SplitAllWidth(lists, choices[0], width);
      SplitAllCount(lists, choices[0]);
      ProductStep(|lists|, |choices[0].options|, Product(choices[1..]));
      SplitAlong(SplitAll(lists, choices[0]), choices[1..], width)
  }

  function Product(choices: seq<Choice>): nat {
    if choices == [] then 1 else |choices[0].options| * Product(choices[1..])
  }

  lemma ProductStep(a: nat, b: nat, c: nat)
    ensures (a * b) * c == a * (b * c)
  {
  }

  /** Each list's conjunction, as truth values. */
  function Conjs(mode: Mode, env: Env, schema: Schema, lists: seq<seq<Expr>>, row: Row): (r: seq<Truth>)
    ensures |r| == |lists|
  {
    seq(|lists|, i requires 0 <= i < |lists| => Conj(Vals(mode, env, schema, lists[i], row)))
  }

  lemma ConjsConcat(mode: Mode, env: Env, schema: Schema, a: seq<seq<Expr>>, b: seq<seq<Expr>>, row: Row)
    ensures Conjs(mode, env, schema, a + b, row) == Conjs(mode, env, schema, a, row) + Conjs(mode, env, schema, b, row)
  {
  }

  /** The options of a choice, taken together, mean what the term they replace means. */
  ghost predicate Covers(mode: Mode, env: Env, schema: Schema, term: Expr, options: seq<Expr>, row: Row) {
    options != [] && Disj(Vals(mode, env, schema, options, row)) == Eval(mode, env, schema, term, row)
  }

  lemma OneOptionMeans(mode: Mode, env: Env, schema: Schema, terms: seq<Expr>, i: nat, option: Expr, row: Row)
    requires i < |terms|
    ensures var vals := Vals(mode, env, schema, terms, row);
            Conj(Vals(mode, env, schema, terms[i := option], row))
            == KleeneAnd(Conj(vals[..i]), KleeneAnd(Eval(mode, env, schema, option, row), Conj(vals[i + 1..])))
  {
    var vals, changed := Vals(mode, env, schema, terms, row), Vals(mode, env, schema, terms[i := option], row);
    ConjAt(changed, i);
    assert changed[..i] == vals[..i] && changed[i + 1..] == vals[i + 1..];
  }

  /** Splitting one conjunction along a choice keeps its truth value. */
  lemma SubstituteMeans(mode: Mode, env: Env, schema: Schema, terms: seq<Expr>, c: Choice, row: Row)
    requires c.index < |terms| && Covers(mode, env, schema, terms[c.index], c.options, row)
    ensures Disj(Conjs(mode, env, schema, Substitute(terms, c), row)) == Conj(Vals(mode, env, schema, terms, row))
  {
    var vals, options := Vals(mode, env, schema, terms, row), Vals(mode, env, schema, c.options, row);
    var p, q := Conj(vals[..c.index]), Conj(vals[c.index + 1..]);
    ConjAt(vals, c.index);
    AndOverDisj(p, q, options);
    var split := Conjs(mode, env, schema, Substitute(terms, c), row);
    forall j | 0 <= j < |c.options| ensures split[j] == Around(p, q, options)[j] {
      OneOptionMeans(mode, env, schema, terms, c.index, c.options[j], row);
    }
    assert split == Around(p, q, options);
  }

  lemma {:induction false} SplitAllMeans(mode: Mode, env: Env, schema: Schema, lists: seq<seq<Expr>>, c: Choice,
      row: Row)
    requires forall l :: l in lists ==> c.index < |l| && Covers(mode, env, schema, l[c.index], c.options, row)
    ensures Disj(Conjs(mode, env, schema, SplitAll(lists, c), row)) == Disj(Conjs(mode, env, schema, lists, row))
  {
    if lists != [] {
      assert lists[0] in lists;
      SubstituteMeans(mode, env, schema, lists[0], c, row);
      SplitAllMeans(mode, env, schema, lists[1..], c, row);
      var first, rest := Substitute(lists[0], c), SplitAll(lists[1..], c);
      ConjsConcat(mode, env, schema, first, rest, row);
      DisjAppend(Conjs(mode, env, schema, first, row), Conjs(mode, env, schema, rest, row));
      assert Conjs(mode, env, schema, lists, row)[1..] == Conjs(mode, env, schema, lists[1..], row);
    }
  }

  /** Positions at or after `from` still hold the original terms. */
  ghost predicate Untouched(lists: seq<seq<Expr>>, terms: seq<Expr>, from: nat) {
    forall l :: l in lists ==> |l| == |terms| && forall i :: from <= i < |terms| ==> l[i] == terms[i]
  }

  ghost predicate Ordered(choices: seq<Choice>, from: nat, width: nat) {
    && (forall k :: 0 <= k < |choices| ==> from <= choices[k].index < width)
    && (forall k, l :: 0 <= k < l < |choices| ==> choices[k].index < choices[l].index)
  }

  lemma {:induction false} SplitAllUntouched(lists: seq<seq<Expr>>, terms: seq<Expr>, c: Choice)
    requires c.index < |terms| && Untouched(lists, terms, c.index)
    ensures Untouched(SplitAll(lists, c), terms, c.index + 1)
  {
    if lists != [] {
      assert lists[0] in lists;
      SplitAllUntouched(lists[1..], terms, c);
    }
  }

  /** The whole expansion keeps the truth value: the OR of the branches is the conjunction. */
  lemma {:induction false} SplitAlongMeans(mode: Mode, env: Env, schema: Schema, lists: seq<seq<Expr>>,
      terms: seq<Expr>, choices: seq<Choice>, from: nat, row: Row)
    requires Untouched(lists, terms, from) && Ordered(choices, from, |terms|)
    requires forall c :: c in choices ==> c.index < |terms| && Covers(mode, env, schema, terms[c.index], c.options, row)
    ensures SameWidth(lists, |terms|)
    ensures Disj(Conjs(mode, env, schema, SplitAlong(lists, choices, |terms|), row)) ==
            Disj(Conjs(mode, env, schema, lists, row))
    decreases |choices|
  {
    if choices != [] {
      var c := choices[0];
      assert c in choices;
      assert Untouched(lists, terms, c.index);
      SplitAllMeans(mode, env, schema, lists, c, row);
      SplitAllUntouched(lists, terms, c);
      SplitAlongMeans(mode, env, schema, SplitAll(lists, c), terms, choices[1..], c.index + 1, row);
    }
  }

  /** The innermost loop: one list with each option put in its place. */
  method SubstituteEach(list: seq<Expr>, c: Choice) returns (lists: seq<seq<Expr>>)
    requires c.index < |list|
    ensures lists == Substitute(list, c)
  {
    lists := [];
    for j := 0 to |c.options|
      invariant lists == Substitute(list, c)[..j]
    {
      lists := lists + [list[c.index := c.options[j]]];
    }
  }

  /** The middle loop: every list so far split along one choice. */
  method SplitEach(lists: seq<seq<Expr>>, c: Choice) returns (next: seq<seq<Expr>>)
    requires forall l :: l in lists ==> c.index < |l|
    ensures next == SplitAll(lists, c)
  {
    next := [];
    assert lists[0..] == lists;
    for i := 0 to |lists|
      invariant forall l :: l in lists[i..] ==> c.index < |l|
      invariant next + SplitAll(lists[i..], c) == SplitAll(lists, c)
    {
      assert lists[i] in lists[i..] && lists[i..][0] == lists[i] && lists[i..][1..] == lists[i + 1..];
      var split := SubstituteEach(lists[i], c);
      assert next + (split + SplitAll(lists[i + 1..], c)) == (next + split) + SplitAll(lists[i + 1..], c);
      next := next + split;
    }
  }

  /** The nested loops of the expansion. */
  method SplitInLoops(terms: seq<Expr>, choices: seq<Choice>) returns (lists: seq<seq<Expr>>)
    requires forall c :: c in choices ==> c.index < |terms|
    ensures lists == SplitAlong([terms], choices, |terms|)
  {
    lists := [terms];
    assert choices[0..] == choices;
    for k := 0 to |choices|
      invariant SameWidth(lists, |terms|)
      invariant forall c :: c in choices[k..] ==> c.index < |terms|
      invariant SplitAlong(lists, choices[k..], |terms|) == SplitAlong([terms], choices, |terms|)
    {
      var c := choices[k];
      assert c in choices[k..] && choices[k..][0] == c && choices[k..][1..] == choices[k + 1..];
      SplitAllWidth(lists, c, |terms|);
      lists := SplitEach(lists, c);
    }
  }

  function Rebuilt(lists: seq<seq<Expr>>): (r: seq<Expr>)
    requires forall i :: 0 <= i < |lists| ==> lists[i] != []
    ensures |r| == |lists|
  {
    seq(|lists|, i requires 0 <= i < |lists| => RebuildAnd(lists[i]))
  }

  lemma RebuiltMeans(mode: Mode, env: Env, schema: Schema, lists: seq<seq<Expr>>, row: Row)
    requires forall i :: 0 <= i < |lists| ==> lists[i] != []
    ensures Vals(mode, env, schema, Rebuilt(lists), row) == Conjs(mode, env, schema, lists, row)
  {
    forall i | 0 <= i < |lists|
      ensures Vals(mode, env, schema, Rebuilt(lists), row)[i] == Conjs(mode, env, schema, lists, row)[i]
    {
      RebuildMeans(mode, env, schema, lists[i], row);
    }
  }

  // ----- IN lists ----------------------------------------------------------

  function Equalities(column: string, values: seq<Value>): (r: seq<Expr>)
    ensures |r| == |values| && forall i :: 0 <= i < |r| ==> r[i] == Expr.Compare(column, Eq, values[i])
  {
    seq(|values|, i requires 0 <= i < |values| => Expr.Compare(column, Eq, values[i]))
  }

  predicate Expandable(e: Expr) { e.InList? && !e.negated && |e.values| >= 2 }

  predicate ForInList(terms: seq<Expr>, c: Choice) {
    && c.index < |terms|
    && Expandable(terms[c.index])
    && c.options == Equalities(terms[c.index].column, terms[c.index].values)
  }

  /** The expandable terms from position `i` on, each with its equalities. */
  function InChoices(terms: seq<Expr>, i: nat): (r: seq<Choice>)
    requires i <= |terms|
    ensures Ordered(r, i, |terms|)
    ensures forall c :: c in r ==> ForInList(terms, c)
    decreases |terms| - i
  {
    if i == |terms| then []
    else
      var rest := InChoices(terms, i + 1);
      assert forall k :: 0 <= k < |rest| ==> rest[k] in rest;
      if Expandable(terms[i]) then [Choice(i, Equalities(terms[i].column, terms[i].values))] + rest else rest
  }

  /** `expand_conjunctive_in_list_branches`. */
  function ExpandIn(filter: Expr): Option<seq<Expr>> {
    var terms := AndTerms(filter);
    if |terms| < 2 then None
    else
      var choices := InChoices(terms, 0);
      if choices == [] || !WithinLimit(choices, 1) then None
      else Some(Rebuilt(SplitAlong([terms], choices, |terms|)))
  }

  /** The running product never passes the limit. */
  predicate WithinLimit(choices: seq<Choice>, acc: nat) {
    choices != [] ==>
        acc * |choices[0].options| <= MAX_BRANCHES && WithinLimit(choices[1..], acc * |choices[0].options|)
  }

  lemma {:induction false} LimitBoundsProduct(choices: seq<Choice>, acc: nat)
    requires WithinLimit(choices, acc) && acc <= MAX_BRANCHES
    ensures acc * Product(choices) <= MAX_BRANCHES
  {
    if choices != [] {
      LimitBoundsProduct(choices[1..], acc * |choices[0].options|);
      ProductStep(acc, |choices[0].options|, Product(choices[1..]));
    }
  }

  /** The membership test compares without the column's collation, its equalities with it: they agree on a
      value when one that is equal under the collation comes with one that is equal without. */
  predicate ListFits(collation: Option<string>, v: Value, values: seq<Value>) {
    !v.Null? && EqualUnder(collation, v, values) ==> EqualUnder(None, v, values)
  }

  predicate EqualUnder(collation: Option<string>, v: Value, values: seq<Value>) {
    exists w | w in values :: !w.Null? && CollatedCompare(collation, v, w) == Some(Equal)
  }

  lemma EqualUnderStep(collation: Option<string>, v: Value, values: seq<Value>)
    requires values != []
    ensures EqualUnder(collation, v, values) <==>
            EqualUnder(collation, v, [values[0]]) || EqualUnder(collation, v, values[1..])
  {
    assert values == [values[0]] + values[1..];
    assert forall w :: w in values <==> w == values[0] || w in values[1..];
  }

  /** What the equalities of a list say, taken together. */
  lemma {:induction false} EqualitiesAre(mode: Mode, env: Env, schema: Schema, column: string, values: seq<Value>,
      row: Row)
    requires values != []
    ensures var v := Cell(schema, row, column);
            Disj(Vals(mode, env, schema, Equalities(column, values), row)) ==
            if v.Null? then Unknown(mode)
            else if EqualUnder(CollationOf(schema, column), v, values) then Some(true)
            else if Null in values then Unknown(mode)
            else Some(false)
  {
    var v, collation := Cell(schema, row, column), CollationOf(schema, column);
    var vals := Vals(mode, env, schema, Equalities(column, values), row);
    assert vals[1..] == Vals(mode, env, schema, Equalities(column, values[1..]), row);
    assert vals[0] == CompareTest(mode, collation, v, Eq, values[0]);
    assert EqualUnder(collation, v, [values[0]]) <==>
        !values[0].Null? && CollatedCompare(collation, v, values[0]) == Some(Equal);
    EqualUnderStep(collation, v, values);
    assert Null in values <==> values[0].Null? || Null in values[1..];
    hide EqualUnder, CollatedCompare, CollationOf;
    if |values| == 1 {
      assert vals[1..] == [] && !EqualUnder(collation, v, []);
    } else {
      EqualitiesAre(mode, env, schema, column, values[1..], row);
    }
  }

  /** An IN list and the OR of its equalities have the same truth value if and only if the list fits. */
  lemma InListIff(mode: Mode, env: Env, schema: Schema, column: string, values: seq<Value>, row: Row)
    requires values != []
    ensures Disj(Vals(mode, env, schema, Equalities(column, values), row)) ==
            Eval(mode, env, schema, Expr.InList(column, values, false), row)
            <==> ListFits(CollationOf(schema, column), Cell(schema, row, column), values)
  {
    var v := Cell(schema, row, column);
    EqualitiesAre(mode, env, schema, column, values, row);
    PlainEqual(v, values);
    if EqualUnder(None, v, values) {
      var w :| w in values && !w.Null? && ExecCompare(v, w) == Some(Equal);
      EqualUnderCollation(CollationOf(schema, column), v, w);
    }
  }

  /** On a column compared bytewise every list fits. */
  lemma BinaryListFits(collation: Option<string>, v: Value, values: seq<Value>)
    requires IsBinary(collation)
    ensures ListFits(collation, v, values)
  {
  }

  /** A term that the expansion reads differently on the row. */
  predicate Misread(schema: Schema, t: Expr, row: Row) {
    Expandable(t) && !ListFits(CollationOf(schema, t.column), Cell(schema, row, t.column), t.values)
  }

  // ----- What the expansion means ------------------------------------------

  function OrOf(es: seq<Expr>): Expr
    requires es != []
  {
    if |es| == 1 then es[0] else Expr.Or(es[0], OrOf(es[1..]))
  }

  lemma {:induction false} OrOfMeans(mode: Mode, env: Env, schema: Schema, es: seq<Expr>, row: Row)
    requires es != []
    ensures Eval(mode, env, schema, OrOf(es), row) == Disj(Vals(mode, env, schema, es, row))
  {
    var vals := Vals(mode, env, schema, es, row);
    assert vals[1..] == Vals(mode, env, schema, es[1..], row);
    if |es| == 1 {
      assert vals[1..] == [];
    } else {
      OrOfMeans(mode, env, schema, es[1..], row);
    }
  }

  /** The terms with every expandable list written as an OR of equalities. */
  function Written(terms: seq<Expr>): (r: seq<Expr>)
    ensures |r| == |terms|
  {
    seq(|terms|, i requires 0 <= i < |terms| =>
      if Expandable(terms[i]) then OrOf(Equalities(terms[i].column, terms[i].values)) else terms[i])
  }

  predicate Chosen(choices: seq<Choice>, i: nat) { exists c | c in choices :: c.index == i }

  /** Lists that agree wherever no choice is still to be made. */
  ghost predicate AgreeOutside(a: seq<seq<Expr>>, b: seq<seq<Expr>>, choices: seq<Choice>, width: nat) {
    && |a| == |b| && SameWidth(a, width) && SameWidth(b, width)
    && forall k, i :: 0 <= k < |a| && 0 <= i < |a[k]| && i < |b[k]| && !Chosen(choices, i) ==> a[k][i] == b[k][i]
  }

  lemma AgreeConcat(a: seq<seq<Expr>>, a': seq<seq<Expr>>, b: seq<seq<Expr>>, b': seq<seq<Expr>>, choices: seq<Choice>,
      width: nat)
    requires AgreeOutside(a, b, choices, width) && AgreeOutside(a', b', choices, width)
    ensures AgreeOutside(a + a', b + b', choices, width)
  {
    hide Chosen;
  }

  lemma SubstituteAgrees(a: seq<Expr>, b: seq<Expr>, choices: seq<Choice>, width: nat)
    requires choices != [] && choices[0].index < width && |a| == |b| == width
    requires forall i :: 0 <= i < width && !Chosen(choices, i) ==> a[i] == b[i]
    ensures AgreeOutside(Substitute(a, choices[0]), Substitute(b, choices[0]), choices[1..], width)
  {
    var c := choices[0];
    var x, y := Substitute(a, c), Substitute(b, c);
    forall i | 0 <= i < width && i != c.index && !Chosen(choices[1..], i) ensures a[i] == b[i] {
      assert !Chosen(choices, i) by { assert choices == [c] + choices[1..]; }
    }
    hide Chosen;
  }

  lemma {:induction false} SplitAllAgrees(a: seq<seq<Expr>>, b: seq<seq<Expr>>, choices: seq<Choice>, width: nat)
    requires choices != [] && choices[0].index < width && AgreeOutside(a, b, choices, width)
    ensures (forall l :: l in a ==> choices[0].index < |l|) && (forall l :: l in b ==> choices[0].index < |l|)
    ensures AgreeOutside(SplitAll(a, choices[0]), SplitAll(b, choices[0]), choices[1..], width)
  {
    hide Chosen;
    if a != [] {
      var c := choices[0];
      assert a[0] in a && b[0] in b;
      assert AgreeOutside(a[1..], b[1..], choices, width);
      SplitAllAgrees(a[1..], b[1..], choices, width);
      SubstituteAgrees(a[0], b[0], choices, width);
      AgreeConcat(Substitute(a[0], c), SplitAll(a[1..], c), Substitute(b[0], c), SplitAll(b[1..], c), choices[1..],
          width);
    }
  }

  lemma {:induction false} SplitAlongAgrees(a: seq<seq<Expr>>, b: seq<seq<Expr>>, choices: seq<Choice>, width: nat)
    requires AgreeOutside(a, b, choices, width) && forall c :: c in choices ==> c.index < width
    ensures SplitAlong(a, choices, width) == SplitAlong(b, choices, width)
    decreases |choices|
  {
    if choices == [] {
      forall k | 0 <= k < |a| ensures a[k] == b[k] {
        assert a[k] in a && b[k] in b;
        forall i | 0 <= i < width ensures a[k][i] == b[k][i] { assert !Chosen(choices, i); }
      }
      assert a == b;
    } else {
      assert choices[0] in choices;
      SplitAllAgrees(a, b, choices, width);
      SplitAlongAgrees(SplitAll(a, choices[0]), SplitAll(b, choices[0]), choices[1..], width);
    }
  }

  lemma {:induction false} ChosenWhenExpandable(terms: seq<Expr>, i: nat, k: nat)
    requires i <= k < |terms| && Expandable(terms[k])
    ensures Chosen(InChoices(terms, i), k)
    decreases |terms| - i
  {
    var choices := InChoices(terms, i);
    if i == k {
      assert choices[0] in choices;
    } else {
      ChosenWhenExpandable(terms, i + 1, k);
      var c :| c in InChoices(terms, i + 1) && c.index == k;
      assert c in choices;
    }
  }

  lemma WrittenAgrees(terms: seq<Expr>)
    ensures AgreeOutside([terms], [Written(terms)], InChoices(terms, 0), |terms|)
  {
    forall i | 0 <= i < |terms| && !Chosen(InChoices(terms, 0), i) ensures terms[i] == Written(terms)[i] {
      if Expandable(terms[i]) { ChosenWhenExpandable(terms, 0, i); }
    }
  }

  lemma WrittenCovered(mode: Mode, env: Env, schema: Schema, terms: seq<Expr>, row: Row)
    ensures forall c :: c in InChoices(terms, 0) ==>
            c.index < |terms| && Covers(mode, env, schema, Written(terms)[c.index], c.options, row)
  {
    forall c | c in InChoices(terms, 0)
      ensures Covers(mode, env, schema, Written(terms)[c.index], c.options, row)
    {
      hide InChoices, Eval;
      OrOfMeans(mode, env, schema, c.options, row);
    }
  }

  /** On every row, and whatever the collations, the OR of the branches has the truth value of the
      conjunction with its lists written as equalities. */
  lemma ExpandInIs(mode: Mode, env: Env, schema: Schema, filter: Expr, row: Row)
    requires ExpandIn(filter).Some?
    ensures Disj(Vals(mode, env, schema, ExpandIn(filter).value, row)) ==
            Conj(Vals(mode, env, schema, Written(AndTerms(filter)), row))
  {
    var terms := AndTerms(filter);
    var written, choices := Written(terms), InChoices(terms, 0);
    WrittenAgrees(terms);
    WrittenCovered(mode, env, schema, terms, row);
    assert ExpandIn(filter).value == Rebuilt(SplitAlong([terms], choices, |terms|));
    hide ExpandIn, Covers, Written, InChoices, SplitAlong, Eval, AgreeOutside;
    SplitAlongAgrees([terms], [written], choices, |terms|);
    SplitAlongMeans(mode, env, schema, [written], written, choices, 0, row);
    RebuiltMeans(mode, env, schema, SplitAlong([terms], choices, |terms|), row);
    OneConj(mode, env, schema, written, row);
  }

  lemma OneConj(mode: Mode, env: Env, schema: Schema, terms: seq<Expr>, row: Row)
    ensures Disj(Conjs(mode, env, schema, [terms], row)) == Conj(Vals(mode, env, schema, terms, row))
  {
    assert Conjs(mode, env, schema, [terms], row)[1..] == [];
  }

  lemma WrittenMeans(mode: Mode, env: Env, schema: Schema, t: Expr, row: Row)
    requires Expandable(t)
    ensures var w := Eval(mode, env, schema, OrOf(Equalities(t.column, t.values)), row);
            (w == Eval(mode, env, schema, t, row) <==> !Misread(schema, t, row)) &&
            (Misread(schema, t, row) ==> w == Some(true)) &&
            (Eval(mode, env, schema, t, row) == Some(true) ==> w == Some(true))
  {
    assert t == Expr.InList(t.column, t.values, false);
    OrOfMeans(mode, env, schema, Equalities(t.column, t.values), row);
    InListIff(mode, env, schema, t.column, t.values, row);
    EqualitiesAre(mode, env, schema, t.column, t.values, row);
  }

  lemma {:induction false} ConjTrue(vals: seq<Truth>)
    ensures Conj(vals) == Some(true) <==> forall v :: v in vals ==> v == Some(true)
  {
    if vals != [] {
      ConjTrue(vals[1..]);
      assert vals[0] in vals && forall v :: v in vals <==> v == vals[0] || v in vals[1..];
      assert KleeneAnd(vals[0], Conj(vals[1..])) == Some(true) <==>
          vals[0] == Some(true) && Conj(vals[1..]) == Some(true);
    }
  }

  /** The OR of the branches has the filter's truth value on a row on which no list is misread, in both
      modes; and on any row it is true exactly when every term is true or misread. */
  lemma ExpandInMeans(mode: Mode, env: Env, schema: Schema, filter: Expr, row: Row)
    requires ExpandIn(filter).Some?
    ensures var branches := Disj(Vals(mode, env, schema, ExpandIn(filter).value, row));
            ((forall t :: t in AndTerms(filter) ==> !Misread(schema, t, row)) ==>
              branches == Eval(mode, env, schema, filter, row)) &&
            (branches == Some(true) <==>
              forall t :: t in AndTerms(filter) ==> Holds(mode, env, schema, t, row) || Misread(schema, t, row))
  {
    var terms := AndTerms(filter);
    var before, after := Vals(mode, env, schema, terms, row), Vals(mode, env, schema, Written(terms), row);
    ExpandInIs(mode, env, schema, filter, row);
    AndTermsMean(mode, env, schema, filter, row);
    forall i | 0 <= i < |terms|
      ensures !Misread(schema, terms[i], row) ==> after[i] == before[i]
      ensures after[i] == Some(true) <==> Holds(mode, env, schema, terms[i], row) || Misread(schema, terms[i], row)
    {
      if Expandable(terms[i]) { WrittenMeans(mode, env, schema, terms[i], row); }
    }
    hide Eval, Misread, Written, ExpandIn;
    if forall t :: t in terms ==> !Misread(schema, t, row) {
      forall i | 0 <= i < |terms| ensures after[i] == before[i] { assert terms[i] in terms; }
      assert after == before;
    }
    ConjTrue(after);
    AllAt(mode, env, schema, terms, after, row);
  }

  lemma AllAt(mode: Mode, env: Env, schema: Schema, terms: seq<Expr>, after: seq<Truth>, row: Row)
    requires |after| == |terms|
    requires forall i :: 0 <= i < |terms| ==>
             (after[i] == Some(true) <==> Holds(mode, env, schema, terms[i], row) || Misread(schema, terms[i], row))
    ensures (forall v :: v in after ==> v == Some(true)) <==>
            forall t :: t in terms ==> Holds(mode, env, schema, t, row) || Misread(schema, t, row)
  {
    hide Holds, Misread;
    if forall v :: v in after ==> v == Some(true) {
      forall t | t in terms ensures Holds(mode, env, schema, t, row) || Misread(schema, t, row) {
        var i :| 0 <= i < |terms| && terms[i] == t;
        assert after[i] in after;
      }
    }
    if forall t :: t in terms ==> Holds(mode, env, schema, t, row) || Misread(schema, t, row) {
      forall v | v in after ensures v == Some(true) {
        var i :| 0 <= i < |after| && after[i] == v;
        assert terms[i] in terms;
      }
    }
  }

  /** The filter `c IN ('A', 'B') AND c IS NOT NULL`. */
  function CaseFilter(): Expr {
    Expr.And(Expr.InList("c", [Text("A"), Text("B")], false), Expr.IsNull("c", true))
  }

  /** On a NOCASE column that holds 'a' the filter is false, and its first branch is true. */
  lemma CaseMisread(mode: Mode, env: Env, schema: Schema, row: Row)
    requires CollationOf(schema, "c") == Some("NOCASE") && Cell(schema, row, "c") == Text("a")
    ensures ExpandIn(CaseFilter()).Some? && Eval(mode, env, schema, CaseFilter(), row) == Some(false)
    ensures Disj(Vals(mode, env, schema, ExpandIn(CaseFilter()).value, row)) == Some(true)
  {
    CaseExpands();
    var list, test := Expr.InList("c", [Text("A"), Text("B")], false), Expr.IsNull("c", true);
    CaseTerms(mode, env, schema, row);
    hide ExpandIn, EqualUnder, CollatedCompare, Membership, Misread, Vals, Disj;
    ExpandInMeans(mode, env, schema, CaseFilter(), row);
  }

  lemma CaseTerms(mode: Mode, env: Env, schema: Schema, row: Row)
    requires CollationOf(schema, "c") == Some("NOCASE") && Cell(schema, row, "c") == Text("a")
    ensures var list := Expr.InList("c", [Text("A"), Text("B")], false);
            Misread(schema, list, row) && Eval(mode, env, schema, list, row) == Some(false)
    ensures Holds(mode, env, schema, Expr.IsNull("c", true), row)
  {
    CaseListMisread();
    hide CollatedCompare, CollationOf, Cell;
    assert !(exists w :: w in [Text("A"), Text("B")] && !w.Null? && ExecCompare(Text("a"), w) == Some(Equal)) by {
      PlainEqual(Text("a"), [Text("A"), Text("B")]);
    }
  }

  lemma PlainEqual(v: Value, values: seq<Value>)
    ensures EqualUnder(None, v, values) <==> exists w :: w in values && !w.Null? && ExecCompare(v, w) == Some(Equal)
  {
    assert forall w :: CollatedCompare(None, v, w) == ExecCompare(v, w);
  }

  lemma CaseExpands()
    ensures AndTerms(CaseFilter()) == [Expr.InList("c", [Text("A"), Text("B")], false), Expr.IsNull("c", true)]
    ensures ExpandIn(CaseFilter()).Some?
  {
    var list, test := Expr.InList("c", [Text("A"), Text("B")], false), Expr.IsNull("c", true);
    assert AndTerms(CaseFilter()) == [list, test];
    var choice := Choice(0, Equalities("c", [Text("A"), Text("B")]));
    assert InChoices([list, test], 2) == [];
    assert InChoices([list, test], 1) == [];
    assert InChoices([list, test], 0) == [choice];
    assert [choice][1..] == [];
    assert WithinLimit([choice], 1);
  }

  lemma CaseListMisread()
    ensures !ListFits(Some("NOCASE"), Text("a"), [Text("A"), Text("B")])
    ensures !EqualUnder(None, Text("a"), [Text("A"), Text("B")])
  {
    var values := [Text("A"), Text("B")];
    assert Lower("a") == Lower("A") == "a";
    CompareTextAntisymmetric("a", "a");
    CompareTextAntisymmetric("a", "A");
    CompareTextAntisymmetric("a", "B");
    assert values[0] in values && CollatedCompare(Some("NOCASE"), Text("a"), Text("A")) == Some(Equal);
    assert EqualUnder(Some("NOCASE"), Text("a"), values);
    assert "a"[0] != "A"[0] && "a"[0] != "B"[0];
  }

  lemma ExpandInCount(filter: Expr)
    requires ExpandIn(filter).Some?
    ensures |ExpandIn(filter).value| == Product(InChoices(AndTerms(filter), 0)) <= MAX_BRANCHES
  {
    LimitBoundsProduct(InChoices(AndTerms(filter), 0), 1);
  }

  // ----- OR terms ----------------------------------------------------------

  /** The terms from `i` on that are ORs of two or more alternatives. */
  function OrChoices(terms: seq<Expr>, i: nat): (r: seq<Choice>)
    requires i <= |terms|
    ensures Ordered(r, i, |terms|)
    ensures forall c :: c in r ==> c.index < |terms| && c.options == OrBranches(terms[c.index])
    decreases |terms| - i
  {
    if i == |terms| then []
    else
      var rest := OrChoices(terms, i + 1);
      assert forall k :: 0 <= k < |rest| ==> rest[k] in rest;
      if |OrBranches(terms[i])| >= 2 then [Choice(i, OrBranches(terms[i]))] + rest else rest
  }

  /** `expand_conjunctive_or_branches`: only a conjunction with exactly one such term is expanded. */
  function ExpandOr(filter: Expr): Option<seq<Expr>> {
    var terms := AndTerms(filter);
    if |terms| < 2 then None
    else
      var choices := OrChoices(terms, 0);
      if |choices| != 1 then None
      else
        assert choices[0] in choices;
        Some(Rebuilt(Substitute(terms, choices[0])))
  }

  /** The OR of the branches has the filter's truth value on every row, in both modes. */
  lemma ExpandOrMeans(mode: Mode, env: Env, schema: Schema, filter: Expr, row: Row)
    requires ExpandOr(filter).Some?
    ensures Disj(Vals(mode, env, schema, ExpandOr(filter).value, row)) == Eval(mode, env, schema, filter, row)
  {
    var terms := AndTerms(filter);
    var choices := OrChoices(terms, 0);
    var c := choices[0];
    assert c in choices;
    OrBranchesMean(mode, env, schema, terms[c.index], row);
    SubstituteMeans(mode, env, schema, terms, c, row);
    RebuiltMeans(mode, env, schema, Substitute(terms, c), row);
    AndTermsMean(mode, env, schema, filter, row);
  }

  // ----- Following a true filter into a branch -----------------------------

  /** A way of being true that reaches into AND, OR and IN: it splits over AND, and picks an
      alternative of an OR and a value of an IN list. */
  ghost predicate Reaching(good: Expr -> bool) {
    && (forall l, r {:trigger Expr.And(l, r)} :: good(Expr.And(l, r)) <==> good(l) && good(r))
    && (forall l, r {:trigger Expr.Or(l, r)} :: good(Expr.Or(l, r)) ==> good(l) || good(r))
    && (forall c, vs {:trigger Expr.InList(c, vs, false)} ::
      good(Expr.InList(c, vs, false)) ==> exists v :: v in vs && good(Expr.Compare(c, Eq, v)))
  }

  ghost predicate AllGood(good: Expr -> bool, es: seq<Expr>) { forall e :: e in es ==> good(e) }
  ghost predicate SomeGood(good: Expr -> bool, es: seq<Expr>) { exists e :: e in es && good(e) }

  lemma {:induction false} TermsGood(good: Expr -> bool, e: Expr)
    requires Reaching(good) && good(e)
    ensures AllGood(good, AndTerms(e))
  {
    match e
    case And(l, r) => TermsGood(good, l); TermsGood(good, r);
    case _ =>
  }

  lemma {:induction false} RebuiltGood(good: Expr -> bool, terms: seq<Expr>)
    requires Reaching(good) && terms != [] && AllGood(good, terms)
    ensures good(RebuildAnd(terms))
  {
    if |terms| > 1 {
      RebuiltGood(good, terms[..|terms| - 1]);
    }
  }

  lemma {:induction false} SomeAlternativeGood(good: Expr -> bool, e: Expr)
    requires Reaching(good) && good(e)
    ensures SomeGood(good, OrBranches(e))
  {
    match e
    case Or(l, r) =>
      if good(l) { SomeAlternativeGood(good, l); } else { SomeAlternativeGood(good, r); }
    case _ => assert e in [e];
  }

  lemma SomeEqualityGood(good: Expr -> bool, column: string, values: seq<Value>)
    requires Reaching(good) && good(Expr.InList(column, values, false))
    ensures SomeGood(good, Equalities(column, values))
  {
    var v :| v in values && good(Expr.Compare(column, Eq, v));
    var i :| 0 <= i < |values| && values[i] == v;
    assert Equalities(column, values)[i] == Expr.Compare(column, Eq, v);
  }

  lemma {:induction false} SplitHas(lists: seq<seq<Expr>>, c: Choice, l: seq<Expr>, j: nat)
    requires (forall l :: l in lists ==> c.index < |l|) && l in lists && j < |c.options|
    ensures l[c.index := c.options[j]] in SplitAll(lists, c)
  {
    if l == lists[0] {
      assert Substitute(l, c)[j] in Substitute(l, c);
    } else {
      SplitHas(lists[1..], c, l, j);
    }
  }

  /** From a list of true terms, the expansion reaches a branch of true terms. */
  lemma {:induction false} ReachBranch(good: Expr -> bool, lists: seq<seq<Expr>>, l: seq<Expr>, terms: seq<Expr>,
      choices: seq<Choice>, from: nat) returns (b: seq<Expr>)
    requires l in lists && Untouched(lists, terms, from) && Ordered(choices, from, |terms|) && AllGood(good, l)
    requires forall c :: c in choices ==> c.index < |terms| && (good(terms[c.index]) ==> SomeGood(good, c.options))
    ensures SameWidth(lists, |terms|) && b in SplitAlong(lists, choices, |terms|) && AllGood(good, b)
    decreases |choices|
  {
    if choices == [] {
      b := l;
    } else {
      var c := choices[0];
      assert c in choices && l[c.index] == terms[c.index] && l[c.index] in l;
      var o :| o in c.options && good(o);
      var j :| 0 <= j < |c.options| && c.options[j] == o;
      SplitHas(lists, c, l, j);
      SplitAllUntouched(lists, terms, c);
      b := ReachBranch(good, SplitAll(lists, c), l[c.index := o], terms, choices[1..], c.index + 1);
    }
  }

  /** A true filter makes one of its IN-expanded branches true. */
  lemma ExpandInReaches(good: Expr -> bool, filter: Expr)
    requires Reaching(good) && good(filter) && ExpandIn(filter).Some?
    ensures SomeGood(good, ExpandIn(filter).value)
  {
    var terms := AndTerms(filter);
    var choices := InChoices(terms, 0);
    TermsGood(good, filter);
    forall c | c in choices && good(terms[c.index]) ensures SomeGood(good, c.options) {
      var t := terms[c.index];
      assert t == Expr.InList(t.column, t.values, false);
      SomeEqualityGood(good, t.column, t.values);
    }
    var b := ReachBranch(good, [terms], terms, terms, choices, 0);
    var lists := SplitAlong([terms], choices, |terms|);
    var i :| 0 <= i < |lists| && lists[i] == b;
    RebuiltGood(good, b);
    assert Rebuilt(lists)[i] == RebuildAnd(b);
  }

  /** A true filter makes one of its OR-expanded branches true. */
  lemma ExpandOrReaches(good: Expr -> bool, filter: Expr)
    requires Reaching(good) && good(filter) && ExpandOr(filter).Some?
    ensures SomeGood(good, ExpandOr(filter).value)
  {
    var terms := AndTerms(filter);
    var c := OrChoices(terms, 0)[0];
    assert c in OrChoices(terms, 0) && terms[c.index] in terms;
    TermsGood(good, filter);
    SomeAlternativeGood(good, terms[c.index]);
    var o :| o in c.options && good(o);
    var j :| 0 <= j < |c.options| && c.options[j] == o;
    var branch := terms[c.index := o];
    RebuiltGood(good, branch);
    assert Rebuilt(Substitute(terms, c))[j] == RebuildAnd(branch);
  }
}
