/** When the optimizer uses an index at all, and what it looks up in it. */
module PlanChoices {
  import opened Common
  import opened Values
  import opened CheckExprs
  import opened Schemas
  import opened StoreSpec
  import opened Filters
  import opened Expansion
  import opened IndexSelection
  import Glob

  // ----- What a conjunction says about a column ----------------------------

  /** A term of a conjunction that the optimizer can read. */
  predicate Readable(t: Expr) {
    !t.Not? && !t.Or? && (t.GlobTest? ==> !t.negated && Glob.PrefixBounds(t.pattern).Some?)
  }

  predicate Fixes(t: Expr, c: string) {
    (t.Compare? && t.column == c && t.op == Eq) || (t.IsNull? && t.column == c && !t.negated)
  }

  predicate Confines(t: Expr, c: string) {
    (t.Compare? && t.column == c && t.op in {Gt, Gte, Lt, Lte}) || (t.Between? && t.column == c && !t.negated) ||
    (t.GlobTest? && t.column == c && !t.negated)
  }

  /** The value that the first term fixing the column fixes it to. */
  function Fixed(terms: seq<Expr>, c: string): Option<Value> {
    if terms == [] then None
    else if Fixes(terms[0], c) then Some(if terms[0].Compare? then terms[0].value else Null)
    else Fixed(terms[1..], c)
  }

  lemma {:induction false} FixedAppend(a: seq<Expr>, b: seq<Expr>, c: string)
    ensures Fixed(a + b, c) == if Fixed(a, c).Some? then Fixed(a, c) else Fixed(b, c)
  {
    if a == [] {
      assert a + b == b;
    } else {
      assert (a + b)[1..] == a[1..] + b;
      FixedAppend(a[1..], b, c);
    }
  }

  lemma {:induction false} FixedIff(terms: seq<Expr>, c: string)
    ensures Fixed(terms, c).Some? <==> exists t :: t in terms && Fixes(t, c)
  {
    if terms != [] {
      FixedIff(terms[1..], c);
      assert terms[0] in terms && forall t :: t in terms <==> t == terms[0] || t in terms[1..];
    }
  }

  function EqualityOf(s: Summary, c: string): Option<Value> { if c in s.equality then Some(s.equality[c]) else None }

  predicate Bounded(s: Summary, c: string) { BoundsOf(s, c).lower.Some? || BoundsOf(s, c).upper.Some? }

  /** The walk gets through exactly the conjunctions of readable terms; it then holds the first value a
      column is fixed to, and bounds for exactly the columns that a term confines. */
  lemma {:induction false} GatherKnows(e: Expr, s: Summary, c: string)
    ensures Gather(e, s).1 <==> forall t :: t in AndTerms(e) ==> Readable(t)
    ensures Gather(e, s).1 ==>
            EqualityOf(Gather(e, s).0, c) ==
            if EqualityOf(s, c).Some? then EqualityOf(s, c) else Fixed(AndTerms(e), c)
    ensures Gather(e, s).1 ==>
            (Bounded(Gather(e, s).0, c) <==> Bounded(s, c) || exists t :: t in AndTerms(e) && Confines(t, c))
    ensures Gather(e, s).1 ==>
            (c in Gather(e, s).0.nonNull <==> c in s.nonNull || Expr.IsNull(c, true) in AndTerms(e))
  {
    match e
    case And(l, r) =>
      var (s', ok) := Gather(l, s);
      GatherKnows(l, s, c);
      GatherKnows(r, s', c);
      FixedAppend(AndTerms(l), AndTerms(r), c);
    case _ =>
      assert AndTerms(e) == [e] && e in AndTerms(e);
      TermKnows(e, s, c);
  }

  lemma TermKnows(e: Expr, s: Summary, c: string)
    requires !e.And?
    ensures Gather(e, s).1 <==> Readable(e)
    ensures Gather(e, s).1 ==>
            EqualityOf(Gather(e, s).0, c) == if EqualityOf(s, c).Some? then EqualityOf(s, c) else Fixed([e], c)
    ensures Gather(e, s).1 ==> (Bounded(Gather(e, s).0, c) <==> Bounded(s, c) || Confines(e, c))
    ensures Gather(e, s).1 ==> (c in Gather(e, s).0.nonNull <==> c in s.nonNull || e == Expr.IsNull(c, true))
  {
    assert Fixed([e], c) == if Fixes(e, c) then Some(if e.Compare? then e.value else Null) else None;
  }

  // ----- Whether an index is used ------------------------------------------

  /** Terms that imply the predicate of a partial index: a term of its own for every part of it, with the
      value the column is fixed to. */
  predicate Implied(e: CheckExpr, terms: seq<Expr>) {
    match e
    case Leaf(c, Compare(Eq, v)) => Fixed(terms, c) == Some(v)
    case Leaf(c, IsNull(negated)) => if negated then Expr.IsNull(c, true) in terms else Fixed(terms, c) == Some(Null)
    case And(l, r) => Implied(l, terms) && Implied(r, terms)
    case _ => false
  }

  predicate Covered(partial: IndexPredicate, terms: seq<Expr>) {
    partial.NoPredicate? || (partial.Parsed? && Implied(partial.expr, terms))
  }

  lemma {:induction false} ImpliedIff(e: CheckExpr, filter: Expr)
    requires Gather(filter, NO_FACTS).1
    ensures ImpliesPredicate(e, Gather(filter, NO_FACTS).0) <==> Implied(e, AndTerms(filter))
  {
    match e
    case Leaf(c, _) => GatherKnows(filter, NO_FACTS, c);
    case And(l, r) => ImpliedIff(l, filter); ImpliedIff(r, filter);
    case _ =>
  }

  /** The index may serve the conjunction: no column compares by letter case, its partial predicate is
      implied, and its first column is fixed or confined by a term. */
  ghost predicate Serves(schema: Schema, meta: IndexMeta, filter: Expr) {
    && (forall c :: c in meta.columns ==> !IsNoCase(CollationOf(schema, c)))
    && Covered(meta.partial, AndTerms(filter))
    && meta.columns != [] && meta.columns[0] != ""
    && exists t :: t in AndTerms(filter) && (Fixes(t, meta.columns[0]) || Confines(t, meta.columns[0]))
  }

  lemma {:induction false} CandidatesComplete(schema: Schema, metas: seq<IndexMeta>, s: Summary)
    ensures Candidates(schema, metas, s) != [] <==> exists m :: m in metas && Usable(schema, m, s)
  {
    if metas != [] {
      CandidatesComplete(schema, metas[1..], s);
      assert metas[0] in metas && forall m :: m in metas <==> m == metas[0] || m in metas[1..];
    }
  }

  /** A conjunction is answered from an index exactly when all its terms are readable and an index
      serves it. */
  lemma IndexUsedIff(schema: Schema, metas: seq<IndexMeta>, filter: Expr)
    ensures FindMatchingIndex(schema, metas, filter).Some? <==>
            (forall t :: t in AndTerms(filter) ==> Readable(t)) && exists m :: m in metas && Serves(schema, m, filter)
  {
    var (s, ok) := Gather(filter, NO_FACTS);
    GatherKnows(filter, NO_FACTS, "");
    if ok {
      CandidatesComplete(schema, metas, s);
      forall m | m in metas ensures Usable(schema, m, s) <==> Serves(schema, m, filter) {
        UsableIff(schema, m, filter);
      }
    }
  }

  lemma UsableIff(schema: Schema, m: IndexMeta, filter: Expr)
    requires Gather(filter, NO_FACTS).1
    ensures Usable(schema, m, Gather(filter, NO_FACTS).0) <==> Serves(schema, m, filter)
  {
    if m.partial.Parsed? { ImpliedIff(m.partial.expr, filter); }
    hide Implied, ImpliesPredicate;
    if m.columns != [] {
      GatherKnows(filter, NO_FACTS, m.columns[0]);
      FixedIff(AndTerms(filter), m.columns[0]);
    }
  }

  // ----- Which index is used -----------------------------------------------

  /** What speaks for a candidate, in the order it counts: values looked up, then a range behind them, then
      uniqueness, then how few columns the index has. */
  function Score(c: Candidate): seq<int> {
    [|c.scan.prefix|, if c.scan.range.Some? then 1 else 0, if c.meta.unique then 1 else 0, 0 - |c.meta.columns|]
  }

  /** Greater at the first place where they differ. */
  ghost predicate Outranks(a: seq<int>, b: seq<int>) {
    exists k :: 0 <= k < |a| && k < |b| && a[..k] == b[..k] && a[k] > b[k]
  }

  lemma BetterOutranks(a: Candidate, b: Candidate)
    ensures Better(a, b) <==> Outranks(Score(a), Score(b))
  {
    var x, y := Score(a), Score(b);
    assert x[..0] == y[..0];
    assert x[0] == y[0] ==> x[..1] == y[..1];
    assert x[0] == y[0] && x[1] == y[1] ==> x[..2] == y[..2];
    assert x[0] == y[0] && x[1] == y[1] && x[2] == y[2] ==> x[..3] == y[..3];
    forall k | 0 <= k < 4 && x[..k] == y[..k] ensures forall l :: 0 <= l < k ==> x[l] == y[l] {
      forall l | 0 <= l < k ensures x[l] == y[l] { assert x[..k][l] == y[..k][l]; }
    }
  }

  /** The chosen candidate outranks all after it, and none before it outranks it. */
  lemma {:induction false} BestMeans(cs: seq<Candidate>) returns (i: nat)
    requires cs != []
    ensures i < |cs| && Best(cs) == cs[i]
    ensures forall j :: 0 <= j < i ==> !Outranks(Score(cs[j]), Score(cs[i]))
    ensures forall j :: i < j < |cs| ==> Outranks(Score(cs[i]), Score(cs[j]))
  {
    var last := |cs| - 1;
    i := last;
    if last > 0 {
      var front := cs[..last];
      var k := BestMeans(front);
      BetterOutranks(front[k], cs[last]);
      if Better(front[k], cs[last]) {
        i := k;
      } else {
        forall j | 0 <= j < last ensures !Outranks(Score(cs[j]), Score(cs[last])) {
          BestIsBest(front, front[j]);
          BetterTransitive(cs[last], front[k], front[j]);
          BetterOutranks(cs[j], cs[last]);
        }
      }
    }
  }

  /** The columns whose values are looked up are the longest leading run of fixed ones, each with the
      value of the first term that fixes it. */
  lemma {:induction false} PrefixMeans(columns: seq<string>, filter: Expr, j: nat)
    requires Gather(filter, NO_FACTS).1 && "" !in columns
    ensures var prefix := KnownPrefix(columns, Gather(filter, NO_FACTS).0.equality);
            (j < |prefix| <==>
              j < |columns| && forall k :: 0 <= k <= j ==> Fixed(AndTerms(filter), columns[k]).Some?) &&
            (j < |prefix| ==> prefix[j] == Fixed(AndTerms(filter), columns[j]).value)
  {
    if columns != [] {
      GatherKnows(filter, NO_FACTS, columns[0]);
      if columns[0] in Gather(filter, NO_FACTS).0.equality && j > 0 {
        PrefixMeans(columns[1..], filter, j - 1);
        assert (forall k :: 0 <= k <= j && k < |columns| ==> Fixed(AndTerms(filter), columns[k]).Some?) <==>
            (forall k :: 0 <= k <= j - 1 && k < |columns| - 1 ==> Fixed(AndTerms(filter), columns[1..][k]).Some?) by {
          if forall k :: 0 <= k <= j - 1 && k < |columns| - 1 ==> Fixed(AndTerms(filter), columns[1..][k]).Some? {
            forall k | 0 <= k <= j && k < |columns| ensures Fixed(AndTerms(filter), columns[k]).Some? {
              if k > 0 { assert columns[1..][k - 1] == columns[k]; }
            }
          }
        }
      }
    }
  }

  /** An IN list of two or more values is answered by one scan for each value when an index serves the
      equality with a value. */
  lemma InListUnion(schema: Schema, metas: seq<IndexMeta>, column: string, values: seq<Value>, m: IndexMeta)
    requires |values| >= 2 && m in metas && m.partial.NoPredicate? && m.columns != [] && m.columns[0] == column != ""
    requires forall c :: c in m.columns ==> !IsNoCase(CollationOf(schema, c))
    ensures var plan := Optimize(schema, metas, Some(Expr.InList(column, values, false)));
            plan.IndexUnion? && |plan.scans| == |values| &&
            forall i :: 0 <= i < |values| ==>
              FindMatchingIndex(schema, metas, Expr.Compare(column, Eq, values[i])) == Some(plan.scans[i])
  {
    var filter, branches := Expr.InList(column, values, false), Equalities(column, values);
    forall i | 0 <= i < |branches|
      ensures FindScan(schema, metas, branches[i]).Some?
    {
      var e := branches[i];
      assert AndTerms(e) == [e] && e in AndTerms(e) && Fixes(e, column);
      assert Serves(schema, m, e);
      IndexUsedIff(schema, metas, e);
    }
    EachFound(schema, metas, branches);
    assert Splits(filter)[0] == Some(branches);
  }

  lemma {:induction false} EachFound(schema: Schema, metas: seq<IndexMeta>, branches: seq<Expr>)
    requires forall i :: 0 <= i < |branches| ==> FindScan(schema, metas, branches[i]).Some?
    ensures ScanEach(schema, metas, branches).Some?
  {
    if branches != [] { EachFound(schema, metas, branches[1..]); }
  }

  /** An OR is answered from indexes when every alternative is. */
  lemma OrUnion(schema: Schema, metas: seq<IndexMeta>, l: Expr, r: Expr)
    requires PlainIndexable(Expr.Or(l, r))
    requires forall b :: b in OrBranches(Expr.Or(l, r)) ==> FindScan(schema, metas, b).Some?
    ensures Optimize(schema, metas, Some(Expr.Or(l, r))).IndexUnion?
  {
    var filter := Expr.Or(l, r);
    var splits := Splits(filter);
    EachFound(schema, metas, OrBranches(filter));
    assert splits[3] == Some(OrBranches(filter));
    LaterUnion(schema, metas, splits, 3);
  }

  lemma {:induction false} LaterUnion(schema: Schema, metas: seq<IndexMeta>, splits: seq<Option<seq<Expr>>>, i: nat)
    requires i < |splits| && ScanBranches(schema, metas, splits[i]).Some?
    ensures FirstUnion(schema, metas, splits).Some?
  {
    if i > 0 { LaterUnion(schema, metas, splits[1..], i - 1); }
  }

  // ----- Whether a filter is optimized at all ------------------------------

  /** A term that makes a conjunction worth looking at. */
  predicate Plain(t: Expr) {
    t.Compare? || ((t.IsNull? || t.InList? || t.Between?) && !t.negated) ||
    (t.GlobTest? && !t.negated && Glob.PrefixBounds(t.pattern).Some?)
  }

  lemma {:induction false} SomePlainTerm(e: Expr)
    requires exists t :: t in AndTerms(e) && Plain(t)
    ensures PlainIndexable(e)
  {
    if e.And? {
      if t :| t in AndTerms(e.conj0) && Plain(t) { SomePlainTerm(e.conj0); }
      if t :| t in AndTerms(e.conj1) && Plain(t) { SomePlainTerm(e.conj1); }
    }
  }

  /** A conjunction with such a term that some index serves is not scanned sequentially. */
  lemma ConjunctionOptimized(schema: Schema, metas: seq<IndexMeta>, filter: Expr)
    requires exists t :: t in AndTerms(filter) && Plain(t)
    requires forall t :: t in AndTerms(filter) ==> Readable(t)
    requires exists m :: m in metas && Serves(schema, m, filter)
    ensures !Optimize(schema, metas, Some(filter)).SeqScan?
  {
    SomePlainTerm(filter);
    IndexUsedIff(schema, metas, filter);
  }

  // ----- Which conjunctions are expanded -----------------------------------

  /** The product of the lengths of all IN lists of two or more values. */
  function ListProduct(terms: seq<Expr>): (n: nat)
    ensures n >= 0
  {
    if terms == [] then 1
    else (if terms[0].InList? && !terms[0].negated && |terms[0].values| >= 2 then |terms[0].values| else 1) *
         ListProduct(terms[1..])
  }

  lemma {:induction false} ChoicesProduct(terms: seq<Expr>, i: nat)
    requires i <= |terms|
    ensures Product(InChoices(terms, i)) == ListProduct(terms[i..])
    ensures InChoices(terms, i) != [] <==> exists k :: i <= k < |terms| && Expandable(terms[k])
    ensures forall c :: c in InChoices(terms, i) ==> |c.options| >= 2
    decreases |terms| - i
  {
    if i < |terms| {
      ChoicesProduct(terms, i + 1);
      assert terms[i..][0] == terms[i] && terms[i..][1..] == terms[i + 1..];
      if Expandable(terms[i]) {
        assert InChoices(terms, i)[1..] == InChoices(terms, i + 1);
      }
    }
  }

  lemma {:induction false} ProductPositive(choices: seq<Choice>)
    requires forall c :: c in choices ==> |c.options| >= 2
    ensures Product(choices) >= 1
  {
    if choices != [] {
      assert choices[0] in choices && forall c :: c in choices[1..] ==> c in choices;
      ProductPositive(choices[1..]);
      Larger(|choices[0].options|, Product(choices[1..]));
    }
  }

  lemma Larger(a: nat, b: nat)
    requires a >= 1 && b >= 1
    ensures a * b >= a && a * b >= b
  {
  }

  lemma {:induction false} WithinIff(choices: seq<Choice>, acc: nat)
    requires 1 <= acc <= MAX_BRANCHES && forall c :: c in choices ==> |c.options| >= 2
    ensures WithinLimit(choices, acc) <==> acc * Product(choices) <= MAX_BRANCHES
  {
    if choices != [] {
      var n, rest := |choices[0].options|, choices[1..];
      assert choices[0] in choices && forall c :: c in rest ==> c in choices;
      ProductPositive(rest);
      Larger(acc, n);
      ProductStep(acc, n, Product(rest));
      if acc * n <= MAX_BRANCHES { WithinIff(rest, acc * n); } else { Larger(acc * n, Product(rest)); }
    }
  }

  /** A conjunction is expanded along its IN lists exactly when it has two or more terms, such a list among
      them, and the branches are 16 at most. */
  lemma ExpandInIff(filter: Expr)
    ensures var terms := AndTerms(filter);
            ExpandIn(filter).Some? <==>
            |terms| >= 2 && (exists t :: t in terms && t.InList? && !t.negated && |t.values| >= 2) &&
            ListProduct(terms) <= 16
  {
    var terms := AndTerms(filter);
    ChoicesProduct(terms, 0);
    assert terms[0..] == terms;
    WithinIff(InChoices(terms, 0), 1);
    if t :| t in terms && t.InList? && !t.negated && |t.values| >= 2 {
      var k :| 0 <= k < |terms| && terms[k] == t;
      assert Expandable(terms[k]);
    }
  }

  /** The term at `k` is an OR, and no other from `i` on. */
  predicate OnlyOr(terms: seq<Expr>, i: nat, k: nat) {
    i <= k < |terms| && terms[k].Or? && forall j | i <= j < |terms| :: j != k ==> !terms[j].Or?
  }

  /** It is expanded along an OR exactly when it has two or more terms and one of them, no more, is an OR. */
  lemma ExpandOrIff(filter: Expr)
    ensures var terms := AndTerms(filter);
            ExpandOr(filter).Some? <==>
            |terms| >= 2 && exists i: nat :: OnlyOr(terms, 0, i)
  {
    OneOr(AndTerms(filter), 0);
  }

  lemma {:induction false} OneOr(terms: seq<Expr>, i: nat)
    requires i <= |terms|
    ensures OrChoices(terms, i) == [] <==> forall j :: i <= j < |terms| ==> !terms[j].Or?
    ensures |OrChoices(terms, i)| == 1 <==> exists k: nat :: OnlyOr(terms, i, k)
    decreases |terms| - i
  {
    if i < |terms| {
      OneOr(terms, i + 1);
      assert terms[i].Or? <==> |OrBranches(terms[i])| >= 2;
      if terms[i].Or? {
        assert OrChoices(terms, i + 1) == [] ==> OnlyOr(terms, i, i);
        if k: nat :| OnlyOr(terms, i, k) {
          assert k == i && forall j :: i + 1 <= j < |terms| ==> !terms[j].Or?;
        }
      } else {
        var next := i + 1;
        if k: nat :| OnlyOr(terms, i, k) { assert OnlyOr(terms, next, k); }
        if k: nat :| OnlyOr(terms, next, k) { assert OnlyOr(terms, i, k); }
      }
    }
  }
}
