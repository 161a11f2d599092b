/** How far the index selection can be trusted: column types under which its plans are always right,
    the exact condition for a single comparison, partial indexes, and the bounds it merges. */
module PlanLimits {
  import opened Common
  import opened Values
  import opened CheckExprs
  import opened Schemas
  import opened Ascending
  import opened StoreSpec
  import opened StoreInvariant
  import opened IndexScans
  import opened Filters
  import opened Expansion
  import opened IndexSelection
  import opened PlannedScans

  // ----- Typed columns -----------------------------------------------------

  /** The literal has the column's declared class, ordered comparisons are not on blobs, and texts
      are not compared under RTRIM. */
  predicate Suits(schema: Schema, column: string, op: CompareOp, literal: Value) {
    match Position(Names(schema), column)
    case None => true
    case Some(i) =>
      var c := schema.columns[i];
      && !c.columnType.AnyType?
      && (literal.Null? || MatchesValue(c.columnType, literal))
      && (c.columnType.BlobType? ==> op == Eq)
      && (c.columnType.TextType? ==> !IsRTrim(c.collation))
  }

  /** Every literal compared with an indexed column suits the column. */
  predicate WellTyped(schema: Schema, cols: set<string>, e: Expr) {
    match e
    case Compare(c, op, literal) => c in cols && op != Ne ==> Suits(schema, c, op, literal)
    case InList(c, values, negated) => c in cols && !negated ==> forall v :: v in values ==> Suits(schema, c, Eq, v)
    case Between(c, low, high, negated) =>
        c in cols && !negated ==> Suits(schema, c, Gte, low) && Suits(schema, c, Lte, high)
    case GlobTest(c, pattern, negated) => c in cols && !negated ==> Suits(schema, c, Gte, Text(pattern))
    case And(l, r) => WellTyped(schema, cols, l) && WellTyped(schema, cols, r)
    case Or(l, r) => WellTyped(schema, cols, l) && WellTyped(schema, cols, r)
    case _ => true
  }

  lemma CellTyped(schema: Schema, row: Row, column: string, op: CompareOp, literal: Value)
    requires RowError(schema, row).None? && Suits(schema, column, op, literal)
    ensures var v := Cell(schema, row, column);
            v.Null? || literal.Null? || (v.Blob? && literal.Blob? && op == Eq)
            || (StoreOrders(v, literal) && (v.Text? ==> !IsRTrim(CollationOf(schema, column))))
  {
    var i := Position(Names(schema), column);
    if i.Some? { assert ColumnError(schema, schema.columns[i.value], row[i.value]).None?; }
  }

  lemma {:induction false} TypedFits(mode: Mode, env: Env, schema: Schema, cols: set<string>, e: Expr, row: Row)
    requires RowError(schema, row).None? && WellTyped(schema, cols, e)
    ensures Fits(mode, env, schema, cols, e, row)
  {
    match e
    case Compare(c, op, literal) => if c in cols && op != Ne { CellTyped(schema, row, c, op, literal); }
    case InList(c, values, negated) =>
      if c in cols && !negated {
        forall v | v in values && ExecCompare(Cell(schema, row, c), v) == Some(Equal)
          ensures Cell(schema, row, c).Boolean? <==> v.Boolean?
        {
          CellTyped(schema, row, c, Eq, v);
        }
      }
    case Between(c, low, high, negated) =>
      if c in cols && !negated {
        CellTyped(schema, row, c, Gte, low);
        CellTyped(schema, row, c, Lte, high);
      }
    case GlobTest(c, pattern, negated) => if c in cols && !negated { CellTyped(schema, row, c, Gte, Text(pattern)); }
    case And(l, r) => TypedFits(mode, env, schema, cols, l, row); TypedFits(mode, env, schema, cols, r, row);
    case Or(l, r) => TypedFits(mode, env, schema, cols, l, row); TypedFits(mode, env, schema, cols, r, row);
    case _ =>
  }

  /** When the literals suit the declared types of the indexed columns, the chosen plan agrees with
      the sequential scan whatever rows the store holds. */
  lemma TypedPlanAgrees(mode: Mode, env: Env, db: Db, table: string, metas: seq<IndexMeta>, filter: Expr)
    requires StoreOk(db) && table in db.schemas && Describes(metas, db, table)
    requires WellTyped(db.schemas[table], ServedColumns(db.schemas[table], metas), filter)
    ensures Execute(mode, env, db, table, Optimize(db.schemas[table], metas, Some(filter)), filter)
            == Execute(mode, env, db, table, SeqScan, filter)
  {
    var schema, rows := db.schemas[table], db.rows[table];
    assert TableAt(db, table);
    forall id | id in rows ensures Fits(mode, env, schema, ServedColumns(schema, metas), filter, rows[id]) {
      assert RowError(schema, rows[id]).None?;
      TypedFits(mode, env, schema, ServedColumns(schema, metas), filter, rows[id]);
    }
    OptimizedPlanAgrees(mode, env, db, table, metas, filter);
  }

  // ----- Any plan, exactly --------------------------------------------------

  /** The row's key lies where the scan reads: under its prefix and, for a range scan, within its bounds as
      the store compares values. */
  ghost predicate Reads(db: Db, table: string, scan: Scan, row: Row)
    requires table in db.schemas
  {
    && scan.index in IndexesOf(db, table)
    && var key := KeyOf(Names(db.schemas[table]), IndexesOf(db, table)[scan.index].meta.columns, row);
    match scan.mode
    case LookupMode => key == scan.prefix
    case PrefixMode => scan.prefix <= key
    case RangeMode => scan.range.Some? && InRange(key, scan.prefix, scan.range.value.lower, scan.range.value.upper)
  }

  ghost predicate PlanReads(db: Db, table: string, plan: Plan, row: Row)
    requires table in db.schemas
  {
    match plan
    case SeqScan => true
    case IndexScan(scan) => Reads(db, table, scan, row)
    case IndexUnion(scans) => exists i :: 0 <= i < |scans| && Reads(db, table, scans[i], row)
  }

  lemma RunScanReads(db: Db, table: string, scan: Scan, id: nat)
    requires StoreOk(db) && table in db.schemas && RunScan(db, table, scan).Ok?
    ensures id in RunScan(db, table, scan).value <==> id in db.rows[table] && Reads(db, table, scan, db.rows[table][id])
  {
    assert TableAt(db, table);
    var names, rows, index := Names(db.schemas[table]), db.rows[table], db.indexes[table][scan.index];
    assert IndexOk(names, index, rows);
    match scan.mode
    case LookupMode => LookupFinds(names, index, rows, scan.prefix, id);
    case PrefixMode => PrefixFinds(names, index, rows, scan.prefix, id);
    case RangeMode => RangeFinds(names, index, rows, scan.prefix, scan.range.value.lower, scan.range.value.upper, id);
  }

  lemma {:induction false} RunScansRead(db: Db, table: string, scans: seq<Scan>, id: nat)
    requires StoreOk(db) && table in db.schemas && RunScans(db, table, scans).Ok?
    ensures id in RunScans(db, table, scans).value <==>
            id in db.rows[table] && PlanReads(db, table, IndexUnion(scans), db.rows[table][id])
  {
    if scans != [] {
      hide RunScan, Reads;
      RunScanReads(db, table, scans[0], id);
      RunScansRead(db, table, scans[1..], id);
      if id in db.rows[table] { UnionStep(db, table, scans, db.rows[table][id]); }
    }
  }

  lemma UnionStep(db: Db, table: string, scans: seq<Scan>, row: Row)
    requires table in db.schemas && scans != []
    ensures PlanReads(db, table, IndexUnion(scans), row) <==>
            Reads(db, table, scans[0], row) || PlanReads(db, table, IndexUnion(scans[1..]), row)
  {
    hide Reads;
    var rest := scans[1..];
    if PlanReads(db, table, IndexUnion(rest), row) {
      var k :| 0 <= k < |rest| && Reads(db, table, rest[k], row);
      assert Reads(db, table, scans[k + 1], row);
    }
    if PlanReads(db, table, IndexUnion(scans), row) {
      var k :| 0 <= k < |scans| && Reads(db, table, scans[k], row);
      assert k > 0 ==> Reads(db, table, rest[k - 1], row);
    }
  }

  ghost predicate ContainsKept(mode: Mode, env: Env, db: Db, table: string, filter: Expr, ids: seq<nat>)
    requires table in db.schemas
  {
    var rows := RowsOf(db, table);
    forall id :: id in rows && Holds(mode, env, db.schemas[table], filter, rows[id]) ==> id in ids
  }

  /** Keeping rows of an ascending selection misses none that keeping rows of the whole would give, exactly
      when all those rows are in the selection. */
  lemma KeptIff(mode: Mode, env: Env, db: Db, table: string, filter: Expr, ids: seq<nat>)
    requires table in db.schemas && StrictlyAscending(ids) && forall id :: id in ids ==> id in RowsOf(db, table)
    ensures Kept(mode, env, db, table, filter, ids) ==
            Kept(mode, env, db, table, filter, Sorted(RowsOf(db, table).Keys))
            <==> ContainsKept(mode, env, db, table, filter, ids)
  {
    var rows, schema := RowsOf(db, table), db.schemas[table];
    var keep := id => id in RowsOf(db, table) && Holds(mode, env, db.schemas[table], filter, RowsOf(db, table)[id]);
    if ContainsKept(mode, env, db, table, filter, ids) {
      SelectAgrees(ids, Sorted(rows.Keys), keep);
    } else {
      var id :| id in rows && Holds(mode, env, schema, filter, rows[id]) && id !in ids;
      assert id in Sorted(rows.Keys) && keep(id);
      assert id in Kept(mode, env, db, table, filter, Sorted(rows.Keys));
    }
  }

  /** The plan reads where every row lies that the filter keeps. */
  ghost predicate ReadsKept(mode: Mode, env: Env, db: Db, table: string, plan: Plan, filter: Expr)
    requires table in db.schemas
  {
    var rows := RowsOf(db, table);
    forall id :: id in rows && Holds(mode, env, db.schemas[table], filter, rows[id]) ==>
      PlanReads(db, table, plan, rows[id])
  }

  ghost predicate PlanOk(db: Db, table: string, plan: Plan) {
    && (plan.IndexScan? ==>
         RunScan(db, table, plan.scan).Ok? && StrictlyAscending(RunScan(db, table, plan.scan).value))
    && (plan.IndexUnion? ==> RunScans(db, table, plan.scans).Ok?)
  }

  lemma PlanRuns(mode: Mode, env: Env, db: Db, table: string, metas: seq<IndexMeta>, filter: Expr)
    requires StoreOk(db) && table in db.schemas && Describes(metas, db, table)
    ensures PlanOk(db, table, Optimize(db.schemas[table], metas, Some(filter)))
  {
    match Optimize(db.schemas[table], metas, Some(filter))
    case SeqScan =>
    case IndexScan(_) => FoundScanCovers(mode, env, db, table, metas, filter);
    case IndexUnion(_) => UnionCovers(mode, env, db, table, metas, filter);
  }

  /** Whatever plan is chosen, for whatever filter and indexes, it runs; and it delivers the rows of the
      sequential scan, in the same order, if and only if it reads where every row lies that the filter
      keeps. */
  lemma PlanAgreesIff(mode: Mode, env: Env, db: Db, table: string, metas: seq<IndexMeta>, filter: Expr)
    requires StoreOk(db) && table in db.schemas && Describes(metas, db, table)
    ensures var plan := Optimize(db.schemas[table], metas, Some(filter));
            Execute(mode, env, db, table, plan, filter).Ok? &&
            (Execute(mode, env, db, table, plan, filter) == Execute(mode, env, db, table, SeqScan, filter)
             <==> ReadsKept(mode, env, db, table, plan, filter))
  {
    var plan, rows := Optimize(db.schemas[table], metas, Some(filter)), db.rows[table];
    PlanRuns(mode, env, db, table, metas, filter);
    hide Optimize, RunScan, RunScans, Kept, Reads, Holds;
    match plan
    case SeqScan =>
    case IndexScan(scan) =>
      var ids := RunScan(db, table, scan).value;
      forall id ensures id in ids <==> id in rows && PlanReads(db, table, plan, rows[id]) {
        RunScanReads(db, table, scan, id);
      }
      KeptIff(mode, env, db, table, filter, ids);
    case IndexUnion(scans) =>
      var ids := Sorted(RunScans(db, table, scans).value);
      forall id ensures id in ids <==> id in rows && PlanReads(db, table, plan, rows[id]) {
        RunScansRead(db, table, scans, id);
      }
      KeptIff(mode, env, db, table, filter, ids);
  }

  // ----- One comparison, exactly -------------------------------------------

  /** The rows a comparison is about, all of which an index can find. */
  ghost predicate AllFit(db: Db, table: string, column: string, op: CompareOp, literal: Value)
    requires table in db.schemas && table in db.rows
  {
    forall id :: id in db.rows[table] ==>
      CompareFits(CollationOf(db.schemas[table], column), Cell(db.schemas[table], db.rows[table][id], column), op,
          literal)
  }

  /** A comparison answered by an index on its column agrees with the sequential scan if and only if
      the comparison fits on every row. */
  lemma SingleComparisonIff(mode: Mode, env: Env, db: Db, table: string, meta: IndexMeta, op: CompareOp, literal: Value)
    requires StoreOk(db) && table in db.schemas && Describes([meta], db, table)
    requires |meta.columns| == 1 && meta.columns[0] != "" && meta.partial == NoPredicate && op != Ne
    requires !UsesNoCase(db.schemas[table], meta)
    ensures var filter := Expr.Compare(meta.columns[0], op, literal);
            Execute(mode, env, db, table, Optimize(db.schemas[table], [meta], Some(filter)), filter)
            == Execute(mode, env, db, table, SeqScan, filter)
            <==> AllFit(db, table, meta.columns[0], op, literal)
  {
    var schema, rows, column := db.schemas[table], db.rows[table], meta.columns[0];
    var filter := Expr.Compare(column, op, literal);
    if AllFit(db, table, column, op, literal) {
      OptimizedPlanAgrees(mode, env, db, table, [meta], filter);
    } else {
      var id :| id in rows && !CompareFits(CollationOf(schema, column), Cell(schema, rows[id], column), op, literal);
      CompareFitsIff(mode, CollationOf(schema, column), Cell(schema, rows[id], column), op, literal);
      SingleScanMisses(db, table, meta, op, literal, id);
      assert id in Execute(mode, env, db, table, SeqScan, filter).value;
    }
  }

  /** The plan for one comparison is the scan of its index, and it returns only rows the store's own
      comparison accepts. */
  lemma SingleScanMisses(db: Db, table: string, meta: IndexMeta, op: CompareOp, literal: Value, id: nat)
    requires StoreOk(db) && table in db.schemas && Describes([meta], db, table)
    requires |meta.columns| == 1 && meta.columns[0] != "" && meta.partial == NoPredicate && op != Ne
    requires !UsesNoCase(db.schemas[table], meta)
    requires id in db.rows[table] &&
             !StoreMatches(Cell(db.schemas[table], db.rows[table][id], meta.columns[0]), op, literal)
    ensures var plan := Optimize(db.schemas[table], [meta], Some(Expr.Compare(meta.columns[0], op, literal)));
            plan.IndexScan? && RunScan(db, table, plan.scan).Ok? && id !in RunScan(db, table, plan.scan).value
  {
    assert TableAt(db, table);
    var schema, rows, index, column := db.schemas[table], db.rows[table], db.indexes[table][meta.name], meta.columns[0];
    assert meta in [meta];
    assert IndexOk(Names(schema), index, rows);
    var s := Gather(Expr.Compare(column, op, literal), NO_FACTS).0;
    assert [column][1..] == [] && meta.columns == [column];
    var scan := ScanFor(meta, s);
    SingleCandidate(schema, meta, op, literal);
    assert KeyOf(Names(schema), meta.columns, rows[id]) == [Cell(schema, rows[id], column)];
    if op == Eq {
      LookupFinds(Names(schema), index, rows, scan.prefix, id);
    } else {
      RangeFinds(Names(schema), index, rows, scan.prefix, scan.range.value.lower, scan.range.value.upper, id);
    }
  }

  lemma {:induction false} NoUnion(schema: Schema, metas: seq<IndexMeta>, splits: seq<Option<seq<Expr>>>)
    requires forall i :: 0 <= i < |splits| ==> splits[i].None? || |splits[i].value| < 2
    ensures FirstUnion(schema, metas, splits).None?
  {
    if splits != [] { NoUnion(schema, metas, splits[1..]); }
  }

  lemma SingleCandidate(schema: Schema, meta: IndexMeta, op: CompareOp, literal: Value)
    requires |meta.columns| == 1 && meta.columns[0] != "" && meta.partial == NoPredicate && op != Ne
    requires !UsesNoCase(schema, meta)
    ensures var filter := Expr.Compare(meta.columns[0], op, literal);
            var scan := ScanFor(meta, Gather(filter, NO_FACTS).0);
            && Optimize(schema, [meta], Some(filter)) == IndexScan(scan)
            && (op == Eq ==> scan == Scan(meta.name, LookupMode, [literal], None))
            && (op != Eq ==> scan.mode == RangeMode && scan.prefix == [] && scan.range.Some?)
            && (op == Gt || op == Gte ==> scan.range == Some(Bounds(Some(Bound(op, literal)), None)))
            && (op == Lt || op == Lte ==> scan.range == Some(Bounds(None, Some(Bound(op, literal)))))
  {
    var column := meta.columns[0];
    var filter := Expr.Compare(column, op, literal);
    var s := Gather(filter, NO_FACTS).0;
    assert meta.columns[1..] == [];
    assert [meta][1..] == [];
    assert Candidates(schema, [meta], s) == [Candidate(meta, ScanFor(meta, s))];
    assert AndTerms(filter) == [filter] && OrBranches(filter) == [filter];
    NoUnion(schema, [meta], Splits(filter));
  }

  // ----- Partial indexes ---------------------------------------------------

  /** No equality of the predicate is with NULL. */
  predicate NonNullEqualities(e: CheckExpr) {
    match e
    case Leaf(_, Compare(Eq, v)) => !v.Null?
    case And(l, r) => NonNullEqualities(l) && NonNullEqualities(r)
    case _ => true
  }

  function PredicateColumns(e: CheckExpr): set<string> {
    match e
    case Leaf(c, _) => {c}
    case And(l, r) => PredicateColumns(l) + PredicateColumns(r)
    case Or(l, r) => PredicateColumns(l) + PredicateColumns(r)
    case Not(inner) => PredicateColumns(inner)
  }

  lemma SameValueCompares(v: Value)
    ensures EvaluateCompare(v, Eq, v) == if v.Null? then None else Some(true)
  {
    match v
    case Text(t) => CompareTextAntisymmetric(t, t);
    case Blob(b) => CompareSeqsAntisymmetric(b, b);
    case _ =>
  }

  /** A partial index judged usable: on a row with the summary's facts, its predicate is true if and
      only if none of its equalities is with NULL. */
  lemma {:induction false} ImpliedPredicateIff(env: Env, schema: Schema, e: CheckExpr, s: Summary, row: Row)
    requires ImpliesPredicate(e, s) && FactsHold(schema, PredicateColumns(e), s, row)
    requires ColumnsExist(Names(schema), e) && |row| == |schema.columns|
    ensures Evaluate(env, Names(schema), e, row).Ok?
    ensures Evaluate(env, Names(schema), e, row) == Ok(Some(true)) <==> NonNullEqualities(e)
  {
    match e
    case And(l, r) =>
      ImpliedPredicateIff(env, schema, l, s, row);
      ImpliedPredicateIff(env, schema, r, s, row);
    case Leaf(c, test) =>
      assert c in PredicateColumns(e);
      assert FactsOf(s, c, Cell(schema, row, c));
      SameValueCompares(Cell(schema, row, c));
    case _ =>
  }

  /** Whenever a filter makes a partial index usable, its predicate is true on every row the filter
      keeps, exactly for predicates without an equality with NULL. */
  lemma PartialIndexComplete(mode: Mode, env: Env, schema: Schema, e: CheckExpr, filter: Expr, row: Row)
    requires Gather(filter, NO_FACTS).1 && PartialUsable(Parsed(e), Gather(filter, NO_FACTS).0)
    requires NoNoCase(schema, PredicateColumns(e)) && Served(mode, env, schema, PredicateColumns(e), filter, row)
    requires ColumnsExist(Names(schema), e) && |row| == |schema.columns|
    ensures Evaluate(env, Names(schema), e, row) == Ok(Some(true)) <==> NonNullEqualities(e)
  {
    GatherSound(mode, env, schema, PredicateColumns(e), filter, NO_FACTS, row);
    ImpliedPredicateIff(env, schema, e, Gather(filter, NO_FACTS).0, row);
  }

  /** The predicate `x = NULL`, true of no row, is judged usable for the filter `x IS NULL`. */
  lemma NullPredicateUsable(column: string)
    ensures var (s, ok) := Gather(Expr.IsNull(column, false), NO_FACTS);
            ok && PartialUsable(Parsed(Leaf(column, ColumnTest.Compare(Eq, Null))), s)
  {
  }

  // ----- Merged bounds -----------------------------------------------------

  predicate IsLower(b: Bound) { b.op.Gt? || b.op.Gte? }
  predicate IsUpper(b: Bound) { b.op.Lt? || b.op.Lte? }

  lemma OrderedTransitive(a: Value, b: Value, c: Value)
    requires StoreOrders(a, b) && StoreOrders(b, c) && StoreCompare(a, b).value != Greater &&
             StoreCompare(b, c).value != Greater
    ensures StoreCompare(a, c).Some? && StoreCompare(a, c).value != Greater
    ensures StoreCompare(a, b).value == Less || StoreCompare(b, c).value == Less ==> StoreCompare(a, c).value == Less
  {
    if a.Text? { CompareTextTransitive(a.text, b.text, c.text); }
  }

  lemma OrderedBothWays(a: Value, b: Value)
    requires StoreOrders(a, b)
    ensures StoreCompare(a, b).Some? && StoreCompare(b, a) == Some(Common.Reverse(StoreCompare(a, b).value))
    ensures StoreCompare(a, b) == Some(Equal) <==> a == b
  {
    if a.Text? { CompareTextAntisymmetric(a.text, b.text); }
  }

  /** Merging two lower bounds loses nothing: on values the store orders with both, the kept bound
      holds exactly when both do. */
  lemma MergedLowerExact(v: Value, current: Bound, bound: Bound)
    requires IsLower(current) && IsLower(bound) && StoreOrders(v, current.value) && StoreOrders(v, bound.value)
    ensures MatchesBound(v, Tighter(Some(current), bound, Less)) <==>
            MatchesBound(v, Some(current)) && MatchesBound(v, Some(bound))
  {
    var a, b := current.value, bound.value;
    OrderedBothWays(a, b);
    OrderedBothWays(v, a);
    OrderedBothWays(v, b);
    if StoreCompare(a, b).value != Greater && StoreCompare(b, v).value != Greater { OrderedTransitive(a, b, v); }
    if StoreCompare(b, a).value != Greater && StoreCompare(a, v).value != Greater { OrderedTransitive(b, a, v); }
  }

  /** The same for upper bounds. */
  lemma MergedUpperExact(v: Value, current: Bound, bound: Bound)
    requires IsUpper(current) && IsUpper(bound) && StoreOrders(v, current.value) && StoreOrders(v, bound.value)
    ensures MatchesBound(v, Tighter(Some(current), bound, Greater)) <==>
            MatchesBound(v, Some(current)) && MatchesBound(v, Some(bound))
  {
    var a, b := current.value, bound.value;
    OrderedBothWays(a, b);
    OrderedBothWays(v, a);
    OrderedBothWays(v, b);
    if StoreCompare(v, b).value != Greater && StoreCompare(b, a).value != Greater { OrderedTransitive(v, b, a); }
    if StoreCompare(v, a).value != Greater && StoreCompare(a, b).value != Greater { OrderedTransitive(v, a, b); }
  }

  /** The sequential scan delivers, ascending, exactly the rows on which the filter holds. */
  lemma SeqScanMeans(mode: Mode, env: Env, db: Db, table: string, filter: Expr)
    requires StoreOk(db) && table in db.schemas
    ensures var r := Execute(mode, env, db, table, SeqScan, filter);
            r.Ok? && StrictlyAscending(r.value) &&
            forall id :: id in r.value <==>
              id in db.rows[table] && Eval(mode, env, db.schemas[table], filter, db.rows[table][id]) == Some(true)
  {
    var keep := id => id in RowsOf(db, table) && Holds(mode, env, db.schemas[table], filter, RowsOf(db, table)[id]);
    SelectAscending(Sorted(RowsOf(db, table).Keys), keep);
  }
}
