/** The optimizer's index selection: what a filter says about each column, which index fits it best,
    and the plan that replaces a sequential scan. */
module IndexSelection {
  import opened Common
  import opened Values
  import opened CheckExprs
  import opened Schemas
  import opened StoreSpec
  import opened IndexScans
  import opened Filters
  import opened Expansion
  import Glob

  // ----- The facts of a conjunction ----------------------------------------

  datatype Bounds = Bounds(lower: Option<Bound>, upper: Option<Bound>)

  /** What a conjunction fixes per column: the first equality, the tightest bounds, and IS NOT NULL. */
  datatype Summary = Summary(equality: map<string, Value>, ranges: map<string, Bounds>, nonNull: set<string>)

  const NO_FACTS := Summary(map[], map[], {})

  /** The optimizer's own `compare_values`: like the store's, but blobs compare as well. */
  function BoundCompare(left: Value, right: Value): Option<Ordering> {
    if left.Blob? && right.Blob? then Some(CompareSeqs(left.bytes, right.bytes)) else StoreCompare(left, right)
  }

  function Strictness(op: CompareOp): nat {
    match op
    case Gt => 2
    case Lt => 2
    case Gte => 1
    case Lte => 1
    case _ => 0
  }

  /** `tighten_lower_bound` and, with the opposite ordering outcome, `tighten_upper_bound`. */
  function Tighter(current: Option<Bound>, bound: Bound, beats: Ordering): Option<Bound> {
    if current.None? then Some(bound)
    else
      var o := BoundCompare(current.value.value, bound.value);
      if o == Some(beats) then Some(bound)
      else if o == Some(Equal) && Strictness(bound.op) > Strictness(current.value.op) then Some(bound)
      else current
  }

  function BoundsOf(s: Summary, column: string): Bounds {
    if column in s.ranges then s.ranges[column] else Bounds(None, None)
  }

  function WithEquality(s: Summary, column: string, v: Value): Summary {
    if column in s.equality then s else s.(equality := s.equality[column := v])
  }

  function WithBounds(s: Summary, column: string, b: Bounds): Summary { s.(ranges := s.ranges[column := b]) }

  function WithLower(s: Summary, column: string, bound: Bound): Summary {
    var b := BoundsOf(s, column);
    WithBounds(s, column, b.(lower := Tighter(b.lower, bound, Less)))
  }

  function WithUpper(s: Summary, column: string, bound: Bound): Summary {
    var b := BoundsOf(s, column);
    WithBounds(s, column, b.(upper := Tighter(b.upper, bound, Greater)))
  }

  function WithRange(s: Summary, column: string, lower: Bound, upper: Bound): Summary {
    WithUpper(WithLower(s, column, lower), column, upper)
  }

  function WithComparison(s: Summary, column: string, op: CompareOp, v: Value): Summary {
    match op
    case Eq => WithEquality(s, column, v)
    case Ne => WithBounds(s, column, BoundsOf(s, column))
    case Gt => WithLower(s, column, Bound(op, v))
    case Gte => WithLower(s, column, Bound(op, v))
    case Lt => WithUpper(s, column, Bound(op, v))
    case Lte => WithUpper(s, column, Bound(op, v))
  }

  /** `collect_conjunctive_terms`: the summary it leaves, and whether the filter was a conjunction it
      can read. */
  function Gather(e: Expr, s: Summary): (Summary, bool) {
    match e
    case Compare(c, op, v) => (WithComparison(s, c, op, v), true)
    case CompareColumns(_, _, _) => (s, true)
    case IsNull(c, negated) => (if negated then s.(nonNull := s.nonNull + {c}) else WithEquality(s, c, Null), true)
    case InList(_, _, _) => (s, true)
    case Between(c, low, high, negated) =>
        (if negated then s else WithRange(s, c, Bound(Gte, low), Bound(Lte, high)), true)
    case GlobTest(c, pattern, negated) =>
      var bounds := Glob.PrefixBounds(pattern);
      if negated || bounds.None? then (s, false)
      else (WithRange(s, c, Bound(Gte, Text(bounds.value.0)), Bound(Lt, Text(bounds.value.1))), true)
    case Not(_) => (s, false)
    case Or(_, _) => (s, false)
    case And(l, r) =>
      var (s', ok) := Gather(l, s);
      if ok then Gather(r, s') else (s', false)
  }

  /** The summary as the optimizer keeps it while it walks the filter. */
  class PredicateSummary {
    var equality: map<string, Value>
    var ranges: map<string, Bounds>
    var nonNull: set<string>

    constructor ()
      ensures State() == NO_FACTS
    {
      equality, ranges, nonNull := map[], map[], {};
    }

    ghost function State(): Summary
      reads this
    {
      Summary(equality, ranges, nonNull)
    }

    method TightenLowerBound(column: string, bound: Bound)
      modifies this`ranges
      ensures State() == WithLower(old(State()), column, bound)
    {
      var entry := if column in ranges then ranges[column] else Bounds(None, None);
      if entry.lower.None? {
        entry := entry.(lower := Some(bound));
      } else {
        var o := BoundCompare(entry.lower.value.value, bound.value);
        if o == Some(Less) || (o == Some(Equal) && Strictness(bound.op) > Strictness(entry.lower.value.op)) {
          entry := entry.(lower := Some(bound));
        }
      }
      ranges := ranges[column := entry];
    }

    method TightenUpperBound(column: string, bound: Bound)
      modifies this`ranges
      ensures State() == WithUpper(old(State()), column, bound)
    {
      var entry := if column in ranges then ranges[column] else Bounds(None, None);
      if entry.upper.None? {
        entry := entry.(upper := Some(bound));
      } else {
        var o := BoundCompare(entry.upper.value.value, bound.value);
        if o == Some(Greater) || (o == Some(Equal) && Strictness(bound.op) > Strictness(entry.upper.value.op)) {
          entry := entry.(upper := Some(bound));
        }
      }
      ranges := ranges[column := entry];
    }

    method RecordEquality(column: string, v: Value)
      modifies this`equality
      ensures State() == WithEquality(old(State()), column, v)
    {
      if column !in equality {
        equality := equality[column := v];
      }
    }

    method RecordComparison(column: string, op: CompareOp, v: Value)
      modifies this
      ensures State() == WithComparison(old(State()), column, op, v)
    {
      match op
      case Eq => RecordEquality(column, v);
      case Ne =>
        if column !in ranges {
          ranges := ranges[column := Bounds(None, None)];
        } else {
          assert ranges[column := ranges[column]] == ranges;
        }
      case Gt => TightenLowerBound(column, Bound(op, v));
      case Gte => TightenLowerBound(column, Bound(op, v));
      case Lt => TightenUpperBound(column, Bound(op, v));
      case Lte => TightenUpperBound(column, Bound(op, v));
    }

    /** The walk over the filter, stopping at the first term it cannot read. */
    method CollectConjunctiveTerms(e: Expr) returns (ok: bool)
      modifies this
      ensures (State(), ok) == Gather(e, old(State()))
      decreases e
    {
      match e
      case Compare(c, op, v) =>
        RecordComparison(c, op, v);
        ok := true;
      case CompareColumns(_, _, _) => ok := true;
      case IsNull(c, negated) =>
        if negated {
          nonNull := nonNull + {c};
        } else {
          RecordEquality(c, Null);
        }
        ok := true;
      case InList(_, _, _) => ok := true;
      case Between(c, low, high, negated) =>
        if !negated {
          TightenLowerBound(c, Bound(Gte, low));
          TightenUpperBound(c, Bound(Lte, high));
        }
        ok := true;
      case GlobTest(c, pattern, negated) =>
        var bounds := Glob.PrefixBounds(pattern);
        ok := !negated && bounds.Some?;
        if ok {
          TightenLowerBound(c, Bound(Gte, Text(bounds.value.0)));
          TightenUpperBound(c, Bound(Lt, Text(bounds.value.1)));
        }
      case Not(_) => ok := false;
      case Or(_, _) => ok := false;
      case And(l, r) =>
        ok := CollectConjunctiveTerms(l);
        if ok {
          ok := CollectConjunctiveTerms(r);
        }
    }
  }

  // ----- Candidates --------------------------------------------------------

  datatype ScanMode = LookupMode | RangeMode | PrefixMode

  /** `IndexScanSpec`; the range's column is the one after the prefix. */
  datatype Scan = Scan(index: string, mode: ScanMode, prefix: Key, range: Option<Bounds>)

  datatype Candidate = Candidate(meta: IndexMeta, scan: Scan)

  /** The longest run of leading index columns with a known value. */
  function KnownPrefix(columns: seq<string>, equality: map<string, Value>): (k: Key)
    ensures |k| <= |columns|
  {
    if columns == [] || columns[0] == "" || columns[0] !in equality then []
    else [equality[columns[0]]] + KnownPrefix(columns[1..], equality)
  }

  /** The bounds on the first index column past the prefix. */
  function NextRange(columns: seq<string>, at: nat, s: Summary): Option<Bounds> {
    if at >= |columns| || columns[at] == "" || columns[at] !in s.ranges then None
    else
      var b := s.ranges[columns[at]];
      if b.lower.Some? || b.upper.Some? then Some(b) else None
  }

  /** `index_uses_nocase_column`. */
  predicate UsesNoCase(schema: Schema, meta: IndexMeta) {
    exists c | c in meta.columns :: IsNoCase(CollationOf(schema, c))
  }

  /** `partial_check_expr_matches`. */
  predicate ImpliesPredicate(e: CheckExpr, s: Summary) {
    match e
    case Leaf(c, Compare(Eq, v)) => c in s.equality && s.equality[c] == v
    case Leaf(c, IsNull(negated)) => if negated then c in s.nonNull else c in s.equality && s.equality[c] == Null
    case And(l, r) => ImpliesPredicate(l, s) && ImpliesPredicate(r, s)
    case _ => false
  }

  /** `partial_index_predicate_matches`. */
  predicate PartialUsable(partial: IndexPredicate, s: Summary) {
    match partial
    case NoPredicate => true
    case Unparsable => false
    case Parsed(e) => ImpliesPredicate(e, s)
  }

  function ScanFor(meta: IndexMeta, s: Summary): Scan {
    var prefix := KnownPrefix(meta.columns, s.equality);
    var range := NextRange(meta.columns, |prefix|, s);
    var mode := if range.Some? then RangeMode else if |prefix| == |meta.columns| then LookupMode else PrefixMode;
    Scan(meta.name, mode, prefix, range)
  }

  predicate Usable(schema: Schema, meta: IndexMeta, s: Summary) {
    && PartialUsable(meta.partial, s)
    && !UsesNoCase(schema, meta)
    && (ScanFor(meta, s).prefix != [] || ScanFor(meta, s).range.Some?)
  }

  function Candidates(schema: Schema, metas: seq<IndexMeta>, s: Summary): (r: seq<Candidate>)
    ensures forall c :: c in r ==> c.meta in metas && Usable(schema, c.meta, s) && c.scan == ScanFor(c.meta, s)
  {
    if metas == [] then []
    else
      var rest := Candidates(schema, metas[1..], s);
      if Usable(schema, metas[0], s) then [Candidate(metas[0], ScanFor(metas[0], s))] + rest else rest
  }

  /** The selection order: prefix length, then a range, then uniqueness, then fewer columns. */
  predicate Better(a: Candidate, b: Candidate) {
    var (p, q) := (|a.scan.prefix|, |b.scan.prefix|);
    if p != q then p > q
    else if a.scan.range.Some? != b.scan.range.Some? then a.scan.range.Some?
    else if a.meta.unique != b.meta.unique then a.meta.unique
    else |a.meta.columns| < |b.meta.columns|
  }

  /** `max_by_key`: the last of the best. */
  function Best(cs: seq<Candidate>): (r: Candidate)
    requires cs != []
    ensures r in cs
  {
    if |cs| == 1 then cs[0]
    else
      var front := Best(cs[..|cs| - 1]);
      if Better(front, cs[|cs| - 1]) then front else cs[|cs| - 1]
  }

  lemma BetterTransitive(a: Candidate, b: Candidate, c: Candidate)
    requires !Better(b, a) && !Better(c, b)
    ensures !Better(c, a)
    ensures Better(a, b) || Better(b, c) ==> Better(a, c)
  {
  }

  /** No candidate is better than the chosen one. */
  lemma {:induction false} BestIsBest(cs: seq<Candidate>, c: Candidate)
    requires c in cs
    ensures !Better(c, Best(cs))
  {
    if |cs| > 1 {
      var front, last := cs[..|cs| - 1], cs[|cs| - 1];
      if c in front {
        BestIsBest(front, c);
        if !Better(Best(front), last) { BetterTransitive(last, Best(front), c); }
      }
    }
  }

  /** `find_matching_index`. */
  function FindMatchingIndex(schema: Schema, metas: seq<IndexMeta>, filter: Expr): Option<Scan> {
    var (s, ok) := Gather(filter, NO_FACTS);
    if !ok then None
    else
      var cs := Candidates(schema, metas, s);
      if cs == [] then None else Some(Best(cs).scan)
  }

  /** `find_matching_index_scan`: a one-value IN list is tried as an equality first. */
  function FindScan(schema: Schema, metas: seq<IndexMeta>, filter: Expr): Option<Scan> {
    var asEquality :=
      if filter.InList? && !filter.negated && |filter.values| == 1
      then FindMatchingIndex(schema, metas, Expr.Compare(filter.column, Eq, filter.values[0])) else None;
    if asEquality.Some? then asEquality else FindMatchingIndex(schema, metas, filter)
  }

  // ----- Unions ------------------------------------------------------------

  /** A scan for every branch, or none at all. */
  function ScanEach(schema: Schema, metas: seq<IndexMeta>, branches: seq<Expr>): (r: Option<seq<Scan>>)
    ensures r.Some? ==> |r.value| == |branches|
    ensures r.Some? ==> forall i :: 0 <= i < |branches| ==> FindScan(schema, metas, branches[i]) == Some(r.value[i])
  {
    if branches == [] then Some([])
    else
      var first, rest := FindScan(schema, metas, branches[0]), ScanEach(schema, metas, branches[1..]);
      if first.Some? && rest.Some? then Some([first.value] + rest.value) else None
  }

  function ScanBranches(schema: Schema, metas: seq<IndexMeta>, branches: Option<seq<Expr>>): Option<seq<Scan>> {
    if branches.Some? && |branches.value| >= 2 then ScanEach(schema, metas, branches.value) else None
  }

  /** The four ways to split a filter, in the order they are tried. */
  function Splits(filter: Expr): seq<Option<seq<Expr>>> {
    [if filter.InList? && !filter.negated then Some(Equalities(filter.column, filter.values)) else None,
     ExpandIn(filter),
     ExpandOr(filter),
     Some(OrBranches(filter))]
  }

  function FirstUnion(schema: Schema, metas: seq<IndexMeta>, splits: seq<Option<seq<Expr>>>): Option<seq<Scan>> {
    if splits == [] then None
    else
      var scans := ScanBranches(schema, metas, splits[0]);
      if scans.Some? then scans else FirstUnion(schema, metas, splits[1..])
  }

  /** `find_index_union_scans`. */
  function FindUnion(schema: Schema, metas: seq<IndexMeta>, filter: Expr): Option<seq<Scan>> {
    FirstUnion(schema, metas, Splits(filter))
  }

  // ----- The pass ----------------------------------------------------------

  datatype Plan = SeqScan | IndexScan(scan: Scan) | IndexUnion(scans: seq<Scan>)

  /** `expr_is_plain_indexable`. */
  predicate PlainIndexable(e: Expr) {
    match e
    case Compare(_, _, _) => true
    case IsNull(_, negated) => !negated
    case InList(_, _, negated) => !negated
    case Between(_, _, _, negated) => !negated
    case GlobTest(_, pattern, negated) => !negated && Glob.PrefixBounds(pattern).Some?
    case CompareColumns(_, _, _) => false
    case Not(inner) => PlainIndexable(inner)
    case And(l, r) => PlainIndexable(l) || PlainIndexable(r)
    case Or(l, r) => PlainIndexable(l) && PlainIndexable(r)
  }

  /** `IndexSelectionPass::optimize` on a sequential scan. */
  function Optimize(schema: Schema, metas: seq<IndexMeta>, filter: Option<Expr>): Plan {
    if filter.None? || !PlainIndexable(filter.value) then SeqScan
    else
      var union := FindUnion(schema, metas, filter.value);
      if union.Some? then IndexUnion(union.value)
      else
        var scan := FindScan(schema, metas, filter.value);
        if scan.Some? then IndexScan(scan.value) else SeqScan
  }
}
