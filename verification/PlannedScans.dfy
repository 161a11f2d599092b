/** Running a plan, and why the optimizer's plan answers a filter as the sequential scan does. */
module PlannedScans {
  import opened Common
  import opened Values
  import opened Schemas
  import opened Ascending
  import opened StoreSpec
  import opened StoreInvariant
  import opened IndexScans
  import opened Filters
  import opened Expansion
  import opened IndexSelection
  import Glob

  // ----- Execution ---------------------------------------------------------

  /** `scan_index_spec`. */
  function RunScan(db: Db, table: string, scan: Scan): Result<seq<nat>> {
    match scan.mode
    case LookupMode => LookupIndex(db, table, scan.index, scan.prefix)
    case PrefixMode => ScanPrefix(db, table, scan.index, scan.prefix)
    case RangeMode =>
      if scan.range.None? then Err(Malformed)
      else ScanRange(db, table, scan.index, scan.prefix, scan.range.value.lower, scan.range.value.upper)
  }

  /** The row ids of several scans, collected into one ordered set. */
  function RunScans(db: Db, table: string, scans: seq<Scan>): Result<set<nat>> {
    if scans == [] then Ok({})
    else match (RunScan(db, table, scans[0]), RunScans(db, table, scans[1..]))
      case (Err(e), _) => Err(e)
      case (_, Err(e)) => Err(e)
      case (Ok(ids), Ok(rest)) => Ok((set id | id in ids) + rest)
  }

  /** `rowset_from_row_ids`: the ids that have a row on which the filter holds, in the given order. */
  function Kept(mode: Mode, env: Env, db: Db, table: string, filter: Expr, ids: seq<nat>): seq<nat>
    requires table in db.schemas
  {
    Select(ids, id => id in RowsOf(db, table) && Holds(mode, env, db.schemas[table], filter, RowsOf(db, table)[id]))
  }

  /** The row ids a plan delivers, in order. */
  function Execute(mode: Mode, env: Env, db: Db, table: string, plan: Plan, filter: Expr): Result<seq<nat>>
    requires table in db.schemas
  {
    match plan
    case SeqScan => Ok(Kept(mode, env, db, table, filter, Sorted(RowsOf(db, table).Keys)))
    case IndexScan(scan) =>
      (match RunScan(db, table, scan)
       case Err(e) => Err(e)
       case Ok(ids) => Ok(Kept(mode, env, db, table, filter, ids)))
    case IndexUnion(scans) =>
      (match RunScans(db, table, scans)
       case Err(e) => Err(e)
       case Ok(ids) => Ok(Kept(mode, env, db, table, filter, Sorted(ids))))
  }

  // ----- Filters an index can serve ----------------------------------------

  /** On the given columns, every comparison of the filter fits a bytewise index: see `CompareFits`;
      a true BETWEEN has bounds the store orders with the value, and a true GLOB is on a text. */
  ghost predicate Fits(mode: Mode, env: Env, schema: Schema, cols: set<string>, e: Expr, row: Row) {
    match e
    case Compare(c, op, literal) =>
        c in cols && op != Ne ==> CompareFits(CollationOf(schema, c), Cell(schema, row, c), op, literal)
    case InList(c, values, negated) => c in cols && !negated ==> InListFits(Cell(schema, row, c), values)
    case Between(c, low, high, negated) =>
      c in cols && !negated && Holds(mode, env, schema, e, row) ==>
        StoreOrders(Cell(schema, row, c), low) && StoreOrders(Cell(schema, row, c), high)
    case GlobTest(c, _, negated) =>
        c in cols && !negated && Holds(mode, env, schema, e, row) ==> Cell(schema, row, c).Text?
    case And(l, r) => Fits(mode, env, schema, cols, l, row) && Fits(mode, env, schema, cols, r, row)
    case Or(l, r) => Fits(mode, env, schema, cols, l, row) && Fits(mode, env, schema, cols, r, row)
    case _ => true
  }

  ghost predicate InListFits(v: Value, values: seq<Value>) {
    forall literal :: literal in values && ExecCompare(v, literal) == Some(Equal) ==> (v.Boolean? <==> literal.Boolean?)
  }

  /** The filter is true and an index serves it. */
  ghost predicate Served(mode: Mode, env: Env, schema: Schema, cols: set<string>, e: Expr, row: Row) {
    Holds(mode, env, schema, e, row) && Fits(mode, env, schema, cols, e, row)
  }

  lemma ServedInList(mode: Mode, env: Env, schema: Schema, cols: set<string>, c: string, values: seq<Value>, row: Row)
    requires Served(mode, env, schema, cols, Expr.InList(c, values, false), row)
    ensures exists v :: v in values && Served(mode, env, schema, cols, Expr.Compare(c, Eq, v), row)
  {
    var cell, collation := Cell(schema, row, c), CollationOf(schema, c);
    var v :| v in values && !v.Null? && ExecCompare(cell, v) == Some(Equal);
    EqualUnderCollation(collation, cell, v);
    if c in cols {
      EqualMeansSame(cell, v);
      if v.Text? { CompareTextAntisymmetric(v.text, v.text); }
    }
    assert Served(mode, env, schema, cols, Expr.Compare(c, Eq, v), row);
  }

  lemma ServedAnd(mode: Mode, env: Env, schema: Schema, cols: set<string>, l: Expr, r: Expr, row: Row)
    ensures Served(mode, env, schema, cols, Expr.And(l, r), row) <==>
            Served(mode, env, schema, cols, l, row) && Served(mode, env, schema, cols, r, row)
  {
  }

  lemma ServedOr(mode: Mode, env: Env, schema: Schema, cols: set<string>, l: Expr, r: Expr, row: Row)
    requires Served(mode, env, schema, cols, Expr.Or(l, r), row)
    ensures Served(mode, env, schema, cols, l, row) || Served(mode, env, schema, cols, r, row)
  {
  }

  ghost function ServedOn(mode: Mode, env: Env, schema: Schema, cols: set<string>, row: Row): Expr -> bool {
    e => Served(mode, env, schema, cols, e, row)
  }

  lemma ServedReaches(mode: Mode, env: Env, schema: Schema, cols: set<string>, row: Row)
    ensures Reaching(ServedOn(mode, env, schema, cols, row))
  {
    var good := ServedOn(mode, env, schema, cols, row);
    forall l, r ensures good(Expr.And(l, r)) <==> good(l) && good(r) {
      ServedAnd(mode, env, schema, cols, l, r, row);
    }
    forall l, r | good(Expr.Or(l, r)) ensures good(l) || good(r) {
      ServedOr(mode, env, schema, cols, l, r, row);
    }
    forall c, vs | good(Expr.InList(c, vs, false)) ensures exists v :: v in vs && good(Expr.Compare(c, Eq, v)) {
      ServedInList(mode, env, schema, cols, c, vs, row);
      var v :| v in vs && Served(mode, env, schema, cols, Expr.Compare(c, Eq, v), row);
      assert good(Expr.Compare(c, Eq, v));
    }
  }

  // ----- The summary holds of every row the filter keeps -------------------

  /** A value agrees with everything a summary says about its column. */
  ghost predicate FactsOf(s: Summary, column: string, v: Value) {
    && (column in s.equality ==> s.equality[column] == v)
    && MatchesBound(v, BoundsOf(s, column).lower)
    && MatchesBound(v, BoundsOf(s, column).upper)
    && (column in s.nonNull ==> !v.Null?)
  }

  ghost predicate FactsHold(schema: Schema, cols: set<string>, s: Summary, row: Row) {
    forall c :: c in cols ==> FactsOf(s, c, Cell(schema, row, c))
  }

  lemma CompareFacts(mode: Mode, collation: Option<string>, s: Summary, column: string, v: Value, op: CompareOp,
      literal: Value)
    requires FactsOf(s, column, v) && !IsNoCase(collation)
    requires CompareTest(mode, collation, v, op, literal) == Some(true) &&
             (op != Ne ==> CompareFits(collation, v, op, literal))
    ensures FactsOf(WithComparison(s, column, op, literal), column, v)
  {
    if op != Ne { CompareFitsIff(mode, collation, v, op, literal); }
  }

  lemma RangeFacts(s: Summary, column: string, v: Value, lower: Bound, upper: Bound)
    requires FactsOf(s, column, v) && StoreMatches(v, lower.op, lower.value) && StoreMatches(v, upper.op, upper.value)
    ensures FactsOf(WithRange(s, column, lower, upper), column, v)
  {
  }

  lemma BetweenFacts(mode: Mode, s: Summary, column: string, v: Value, low: Value, high: Value)
    requires FactsOf(s, column, v) && BetweenTest(mode, v, low, high) == Some(true)
    requires StoreOrders(v, low) && StoreOrders(v, high)
    ensures FactsOf(WithRange(s, column, Bound(Gte, low), Bound(Lte, high)), column, v)
  {
    RangeFacts(s, column, v, Bound(Gte, low), Bound(Lte, high));
  }

  lemma GlobFacts(env: Env, s: Summary, column: string, v: Value, pattern: string)
    requires FactsOf(s, column, v) && v.Text? && Glob.Matches(TextLike(env, v), pattern) &&
             Glob.PrefixBounds(pattern).Some?
    ensures var (lo, hi) := Glob.PrefixBounds(pattern).value;
            FactsOf(WithRange(s, column, Bound(Gte, Text(lo)), Bound(Lt, Text(hi))), column, v)
  {
    Glob.PrefixBoundsExact(v.text, pattern);
    var (lo, hi) := Glob.PrefixBounds(pattern).value;
    RangeFacts(s, column, v, Bound(Gte, Text(lo)), Bound(Lt, Text(hi)));
  }

  ghost predicate NoNoCase(schema: Schema, cols: set<string>) {
    forall c :: c in cols ==> !IsNoCase(CollationOf(schema, c))
  }

  /** Whatever the walk collects from a filter is true of every row the filter keeps. */
  lemma {:induction false} GatherSound(mode: Mode, env: Env, schema: Schema, cols: set<string>, e: Expr, s: Summary,
      row: Row)
    requires NoNoCase(schema, cols) && FactsHold(schema, cols, s, row)
    requires Served(mode, env, schema, cols, e, row) && Gather(e, s).1
    ensures FactsHold(schema, cols, Gather(e, s).0, row)
  {
    match e
    case And(l, r) =>
      GatherSound(mode, env, schema, cols, l, s, row);
      GatherSound(mode, env, schema, cols, r, Gather(l, s).0, row);
    case _ => LeafSound(mode, env, schema, cols, e, s, row);
  }

  lemma LeafSound(mode: Mode, env: Env, schema: Schema, cols: set<string>, e: Expr, s: Summary, row: Row)
    requires NoNoCase(schema, cols) && FactsHold(schema, cols, s, row) && !e.And?
    requires Served(mode, env, schema, cols, e, row) && Gather(e, s).1
    ensures FactsHold(schema, cols, Gather(e, s).0, row)
  {
    forall c | c in cols ensures FactsOf(Gather(e, s).0, c, Cell(schema, row, c)) {
      assert FactsOf(s, c, Cell(schema, row, c));
      if !e.CompareColumns? && !e.Not? && !e.Or? && e.column == c {
        OwnColumnSound(mode, env, schema, cols, e, s, c, row);
      } else {
        OtherColumnSound(e, s, c, Cell(schema, row, c));
      }
    }
  }

  lemma OtherColumnSound(e: Expr, s: Summary, c: string, v: Value)
    requires FactsOf(s, c, v) && !e.And? && (e.CompareColumns? || e.Not? || e.Or? || e.column != c)
    ensures FactsOf(Gather(e, s).0, c, v)
  {
  }

  lemma OwnColumnSound(mode: Mode, env: Env, schema: Schema, cols: set<string>, e: Expr, s: Summary, c: string,
      row: Row)
    requires NoNoCase(schema, cols) && c in cols && FactsOf(s, c, Cell(schema, row, c))
    requires Served(mode, env, schema, cols, e, row) && Gather(e, s).1
    requires !e.CompareColumns? && !e.Not? && !e.Or? && !e.And? && e.column == c
    ensures FactsOf(Gather(e, s).0, c, Cell(schema, row, c))
  {
    var v := Cell(schema, row, c);
    match e
    case Compare(_, op, literal) => CompareFacts(mode, CollationOf(schema, c), s, c, v, op, literal);
    case Between(_, low, high, negated) => if !negated { BetweenFacts(mode, s, c, v, low, high); }
    case GlobTest(_, pattern, _) => GlobFacts(env, s, c, v, pattern);
    case IsNull(_, _) =>
    case InList(_, _, _) =>
  }

  // ----- Scans find what their summary describes ---------------------------

  lemma {:induction false} KnownPrefixHolds(schema: Schema, columns: seq<string>, s: Summary, row: Row)
    requires forall c :: c in columns ==> FactsOf(s, c, Cell(schema, row, c))
    ensures KnownPrefix(columns, s.equality) <= KeyOf(Names(schema), columns, row)
  {
    var prefix, key := KnownPrefix(columns, s.equality), KeyOf(Names(schema), columns, row);
    if prefix != [] {
      assert columns[0] in columns;
      KnownPrefixHolds(schema, columns[1..], s, row);
      assert key == [Cell(schema, row, columns[0])] + KeyOf(Names(schema), columns[1..], row);
      assert prefix == [s.equality[columns[0]]] + KnownPrefix(columns[1..], s.equality);
    }
  }

  lemma NextRangeHolds(schema: Schema, columns: seq<string>, s: Summary, row: Row)
    requires forall c :: c in columns ==> FactsOf(s, c, Cell(schema, row, c))
    ensures var prefix := KnownPrefix(columns, s.equality);
            var range := NextRange(columns, |prefix|, s);
            range.Some? ==> InRange(KeyOf(Names(schema), columns, row), prefix, range.value.lower, range.value.upper)
  {
    KnownPrefixHolds(schema, columns, s, row);
    var at := |KnownPrefix(columns, s.equality)|;
    if at < |columns| {
      assert columns[at] in columns;
      assert KeyOf(Names(schema), columns, row)[at] == Cell(schema, row, columns[at]);
    }
  }

  /** A candidate scan runs without error and returns, ascending, ids that include every row the
      summary describes. */
  lemma ScanFinds(db: Db, table: string, meta: IndexMeta, s: Summary)
    requires StoreOk(db) && table in db.schemas && meta.name in db.indexes[table] &&
             db.indexes[table][meta.name].meta == meta
    requires Usable(db.schemas[table], meta, s)
    ensures var r := RunScan(db, table, ScanFor(meta, s));
            r.Ok? && StrictlyAscending(r.value) &&
            forall id :: id in db.rows[table] && FactsHold(db.schemas[table], Columns(meta), s, db.rows[table][id]) ==>
                id in r.value
  {
    assert TableAt(db, table);
    var schema, rows, index := db.schemas[table], db.rows[table], db.indexes[table][meta.name];
    assert IndexOk(Names(schema), index, rows);
    var scan, r := ScanFor(meta, s), RunScan(db, table, ScanFor(meta, s));
    forall id | id in rows && FactsHold(schema, Columns(meta), s, rows[id]) ensures id in r.value {
      var key := KeyOf(Names(schema), meta.columns, rows[id]);
      assert forall c :: c in meta.columns ==> c in Columns(meta);
      KnownPrefixHolds(schema, meta.columns, s, rows[id]);
      NextRangeHolds(schema, meta.columns, s, rows[id]);
      match scan.mode
      case LookupMode => LookupFinds(Names(schema), index, rows, scan.prefix, id);
      case PrefixMode => PrefixFinds(Names(schema), index, rows, scan.prefix, id);
      case RangeMode =>
          RangeFinds(Names(schema), index, rows, scan.prefix, scan.range.value.lower, scan.range.value.upper, id);
    }
  }

  function Columns(meta: IndexMeta): set<string> { set c | c in meta.columns }

  /** The columns of the indexes the optimizer may use. */
  function ServedColumns(schema: Schema, metas: seq<IndexMeta>): set<string> {
    set m, c | m in metas && !UsesNoCase(schema, m) && c in m.columns :: c
  }

  /** The planning context lists indexes of this table as they are. */
  ghost predicate Describes(metas: seq<IndexMeta>, db: Db, table: string)
    requires table in db.schemas
  {
    forall m :: m in metas ==> m.name in IndexesOf(db, table) && IndexesOf(db, table)[m.name].meta == m
  }

  lemma {:induction false} FitsFewer(mode: Mode, env: Env, schema: Schema, cols: set<string>, fewer: set<string>,
      e: Expr, row: Row)
    requires Fits(mode, env, schema, cols, e, row) && fewer <= cols
    ensures Fits(mode, env, schema, fewer, e, row)
  {
    match e
    case And(l, r) => FitsFewer(mode, env, schema, cols, fewer, l, row);
        FitsFewer(mode, env, schema, cols, fewer, r, row);
    case Or(l, r) => FitsFewer(mode, env, schema, cols, fewer, l, row);
        FitsFewer(mode, env, schema, cols, fewer, r, row);
    case _ =>
  }

  /** A scan found for a filter runs without error and misses no row the filter keeps. */
  ghost predicate Covers(mode: Mode, env: Env, db: Db, table: string, cols: set<string>, e: Expr, scan: Scan)
    requires table in db.schemas && table in db.rows
  {
    var r := RunScan(db, table, scan);
    r.Ok? && StrictlyAscending(r.value) &&
    forall id :: id in db.rows[table] && Served(mode, env, db.schemas[table], cols, e, db.rows[table][id]) ==>
        id in r.value
  }

  lemma MatchingIndexCovers(mode: Mode, env: Env, db: Db, table: string, metas: seq<IndexMeta>, e: Expr)
    requires StoreOk(db) && table in db.schemas && Describes(metas, db, table)
    requires FindMatchingIndex(db.schemas[table], metas, e).Some?
    ensures Covers(mode, env, db, table, ServedColumns(db.schemas[table], metas), e,
            FindMatchingIndex(db.schemas[table], metas, e).value)
  {
    var schema, rows := db.schemas[table], db.rows[table];
    var s, cols := Gather(e, NO_FACTS).0, ServedColumns(schema, metas);
    var best := Best(Candidates(schema, metas, s));
    assert best in Candidates(schema, metas, s);
    var meta := best.meta;
    assert meta in metas && best.scan == ScanFor(meta, s);
    ScanFinds(db, table, meta, s);
    forall id | id in rows && Served(mode, env, schema, cols, e, rows[id])
      ensures FactsHold(schema, Columns(meta), s, rows[id])
    {
      FitsFewer(mode, env, schema, cols, Columns(meta), e, rows[id]);
      GatherSound(mode, env, schema, Columns(meta), e, NO_FACTS, rows[id]);
    }
  }

  lemma FoundScanCovers(mode: Mode, env: Env, db: Db, table: string, metas: seq<IndexMeta>, e: Expr)
    requires StoreOk(db) && table in db.schemas && Describes(metas, db, table) &&
             FindScan(db.schemas[table], metas, e).Some?
    ensures Covers(mode, env, db, table, ServedColumns(db.schemas[table], metas), e,
            FindScan(db.schemas[table], metas, e).value)
  {
    hide Fits, Holds;
    hide RunScan, ServedColumns, Gather, FindMatchingIndex;
    var schema, cols := db.schemas[table], ServedColumns(db.schemas[table], metas);
    if e.InList? && !e.negated && |e.values| == 1 &&
        FindMatchingIndex(schema, metas, Expr.Compare(e.column, Eq, e.values[0])).Some? {
      var eq := Expr.Compare(e.column, Eq, e.values[0]);
      MatchingIndexCovers(mode, env, db, table, metas, eq);
      assert e == Expr.InList(e.column, e.values, false);
      forall id | id in db.rows[table] && Served(mode, env, schema, cols, e, db.rows[table][id])
        ensures Served(mode, env, schema, cols, eq, db.rows[table][id])
      {
        ServedInList(mode, env, schema, cols, e.column, e.values, db.rows[table][id]);
      }
    } else {
      MatchingIndexCovers(mode, env, db, table, metas, e);
    }
  }

  // ----- Unions ------------------------------------------------------------

  ghost predicate ContainsServed(mode: Mode, env: Env, db: Db, table: string, cols: set<string>, e: Expr, ids: set<nat>)
    requires table in db.schemas && table in db.rows
  {
    forall id :: id in db.rows[table] && Served(mode, env, db.schemas[table], cols, e, db.rows[table][id]) ==> id in ids
  }

  lemma {:induction false} RunScansFinds(db: Db, table: string, scans: seq<Scan>)
    requires forall i :: 0 <= i < |scans| ==> RunScan(db, table, scans[i]).Ok?
    ensures var r := RunScans(db, table, scans);
            r.Ok? && forall i, id :: 0 <= i < |scans| && id in RunScan(db, table, scans[i]).value ==> id in r.value
  {
    if scans != [] {
      RunScansFinds(db, table, scans[1..]);
      var r := RunScans(db, table, scans);
      forall i, id | 0 <= i < |scans| && id in RunScan(db, table, scans[i]).value ensures id in r.value {
        if i > 0 { assert scans[1..][i - 1] == scans[i]; }
      }
    }
  }

  lemma BranchesReach(good: Expr -> bool, filter: Expr, i: nat)
    requires Reaching(good) && good(filter) && i < |Splits(filter)| && Splits(filter)[i].Some?
    ensures SomeGood(good, Splits(filter)[i].value)
  {
    match i
    case 0 =>
      assert filter == Expr.InList(filter.column, filter.values, false);
      SomeEqualityGood(good, filter.column, filter.values);
    case 1 => ExpandInReaches(good, filter);
    case 2 => ExpandOrReaches(good, filter);
    case _ => SomeAlternativeGood(good, filter);
  }

  lemma {:induction false} FirstUnionFrom(schema: Schema, metas: seq<IndexMeta>, splits: seq<Option<seq<Expr>>>)
      returns (i: nat)
    requires FirstUnion(schema, metas, splits).Some?
    ensures i < |splits| && splits[i].Some? &&
            ScanEach(schema, metas, splits[i].value) == FirstUnion(schema, metas, splits)
  {
    if ScanBranches(schema, metas, splits[0]).Some? {
      i := 0;
    } else {
      i := FirstUnionFrom(schema, metas, splits[1..]);
      i := i + 1;
    }
  }

  /** A union found for a filter runs without error and misses no row the filter keeps. */
  lemma UnionCovers(mode: Mode, env: Env, db: Db, table: string, metas: seq<IndexMeta>, filter: Expr)
    requires StoreOk(db) && table in db.schemas && Describes(metas, db, table) &&
             FindUnion(db.schemas[table], metas, filter).Some?
    ensures var r := RunScans(db, table, FindUnion(db.schemas[table], metas, filter).value);
            r.Ok? && ContainsServed(mode, env, db, table, ServedColumns(db.schemas[table], metas), filter, r.value)
  {
    var schema, rows, cols := db.schemas[table], db.rows[table], ServedColumns(db.schemas[table], metas);
    var k := FirstUnionFrom(schema, metas, Splits(filter));
    var branches, scans := Splits(filter)[k].value, FindUnion(schema, metas, filter).value;
    forall i | 0 <= i < |scans| ensures Covers(mode, env, db, table, cols, branches[i], scans[i]) {
      FoundScanCovers(mode, env, db, table, metas, branches[i]);
    }
    RunScansFinds(db, table, scans);
    forall id | id in rows && Served(mode, env, schema, cols, filter, rows[id])
      ensures id in RunScans(db, table, scans).value
    {
      var good := ServedOn(mode, env, schema, cols, rows[id]);
      ServedReaches(mode, env, schema, cols, rows[id]);
      BranchesReach(good, filter, k);
      var b :| b in branches && good(b);
      var i :| 0 <= i < |branches| && branches[i] == b;
      assert id in RunScan(db, table, scans[i]).value;
    }
  }

  // ----- The main theorem --------------------------------------------------

  /** On a right store, whatever plan the optimizer chooses delivers the same rows in the same order
      as the sequential scan, under three-valued logic and as the executor evaluates filters, provided
      the filter fits the indexed columns of every row it keeps. */
  lemma OptimizedPlanAgrees(mode: Mode, env: Env, db: Db, table: string, metas: seq<IndexMeta>, filter: Expr)
    requires StoreOk(db) && table in db.schemas && Describes(metas, db, table)
    requires forall id :: id in db.rows[table] ==>
      Fits(mode, env, db.schemas[table], ServedColumns(db.schemas[table], metas), filter, db.rows[table][id])
    ensures Execute(mode, env, db, table, Optimize(db.schemas[table], metas, Some(filter)), filter)
            == Execute(mode, env, db, table, SeqScan, filter)
  {
    var schema, rows := db.schemas[table], db.rows[table];
    var keep := id => id in RowsOf(db, table) && Holds(mode, env, db.schemas[table], filter, RowsOf(db, table)[id]);
    match Optimize(schema, metas, Some(filter))
    case SeqScan =>
    case IndexScan(scan) =>
      FoundScanCovers(mode, env, db, table, metas, filter);
      var ids := RunScan(db, table, scan).value;
      SelectAgrees(ids, Sorted(rows.Keys), keep);
    case IndexUnion(scans) =>
      UnionCovers(mode, env, db, table, metas, filter);
      var ids := Sorted(RunScans(db, table, scans).value);
      SelectAgrees(ids, Sorted(rows.Keys), keep);
  }
}
