/** Reading through indexes: lookups, prefix scans and range scans, and what they return on a right
    store. */
module IndexScans {
  import opened Common
  import opened Values
  import opened Ascending
  import opened StoreSpec
  import opened StoreInvariant

  datatype Bound = Bound(op: CompareOp, value: Value)

  predicate MatchesBound(v: Value, bound: Option<Bound>) {
    bound.Some? ==> StoreMatches(v, bound.value.op, bound.value.value)
  }

  function FindIndex(db: Db, table: string, index: string): Result<IndexState> {
    if index in IndexesOf(db, table) then Ok(IndexesOf(db, table)[index]) else Err(UnknownIndex)
  }

  /** `lookup_index`: the ids filed under exactly this key. */
  function LookupIds(index: IndexState, key: Key): set<nat> {
    if key in index.entries then index.entries[key] else {}
  }

  /** `scan_index_prefix`: the ids filed under keys that start with the prefix. */
  function PrefixIds(index: IndexState, prefix: Key): set<nat> {
    set k, id | k in index.entries && prefix <= k && id in index.entries[k] :: id
  }

  predicate InRange(key: Key, prefix: Key, lower: Option<Bound>, upper: Option<Bound>) {
    prefix <= key && |prefix| < |key| && MatchesBound(key[|prefix|], lower) && MatchesBound(key[|prefix|], upper)
  }

  /** `scan_index_range`: of those, the ids whose next key value lies within the bounds. */
  function RangeIds(index: IndexState, prefix: Key, lower: Option<Bound>, upper: Option<Bound>): set<nat> {
    set k, id | k in index.entries && InRange(k, prefix, lower, upper) && id in index.entries[k] :: id
  }

  function LookupIndex(db: Db, table: string, index: string, key: Key): Result<seq<nat>> {
    match FindIndex(db, table, index)
    case Err(e) => Err(e)
    case Ok(state) => Ok(Sorted(LookupIds(state, key)))
  }

  function ScanPrefix(db: Db, table: string, index: string, prefix: Key): Result<seq<nat>> {
    match FindIndex(db, table, index)
    case Err(e) => Err(e)
    case Ok(state) =>
        if |prefix| > |state.meta.columns| then Err(BadIndexPrefix) else Ok(Sorted(PrefixIds(state, prefix)))
  }

  function ScanRange(db: Db, table: string, index: string, prefix: Key, lower: Option<Bound>,
      upper: Option<Bound>): Result<seq<nat>> {
    match FindIndex(db, table, index)
    case Err(e) => Err(e)
    case Ok(state) =>
      if |prefix| >= |state.meta.columns| then Err(BadIndexPrefix)
          else Ok(Sorted(RangeIds(state, prefix, lower, upper)))
  }

  // ----- What the scans find -----------------------------------------------

  lemma FiledExactly(names: seq<string>, index: IndexState, rows: Rows, key: Key, id: nat)
    requires IndexOk(names, index, rows)
    ensures key in index.entries && id in index.entries[key] <==>
            id in rows && KeyOf(names, index.meta.columns, rows[id]) == key
  {
    var keys := KeyMap(names, index.meta.columns, rows);
    if id in rows {
      assert keys[id] in keys.Values;
    }
  }

  /** A lookup on a right index finds exactly the rows with the key. */
  lemma LookupFinds(names: seq<string>, index: IndexState, rows: Rows, key: Key, id: nat)
    requires IndexOk(names, index, rows)
    ensures id in LookupIds(index, key) <==> id in rows && KeyOf(names, index.meta.columns, rows[id]) == key
  {
    FiledExactly(names, index, rows, key, id);
  }

  /** A prefix scan finds exactly the rows whose key starts with the prefix. */
  lemma PrefixFinds(names: seq<string>, index: IndexState, rows: Rows, prefix: Key, id: nat)
    requires IndexOk(names, index, rows)
    ensures id in PrefixIds(index, prefix) <==> id in rows && prefix <= KeyOf(names, index.meta.columns, rows[id])
  {
    if id in rows {
      FiledExactly(names, index, rows, KeyOf(names, index.meta.columns, rows[id]), id);
    }
    if id in PrefixIds(index, prefix) {
      var k :| k in index.entries && prefix <= k && id in index.entries[k];
      FiledExactly(names, index, rows, k, id);
    }
  }

  /** A range scan finds exactly the rows whose key starts with the prefix and continues in range. */
  lemma RangeFinds(names: seq<string>, index: IndexState, rows: Rows, prefix: Key, lower: Option<Bound>,
      upper: Option<Bound>, id: nat)
    requires IndexOk(names, index, rows)
    ensures id in RangeIds(index, prefix, lower, upper) <==>
            id in rows && InRange(KeyOf(names, index.meta.columns, rows[id]), prefix, lower, upper)
  {
    if id in rows {
      FiledExactly(names, index, rows, KeyOf(names, index.meta.columns, rows[id]), id);
    }
    if id in RangeIds(index, prefix, lower, upper) {
      var k :| k in index.entries && InRange(k, prefix, lower, upper) && id in index.entries[k];
      FiledExactly(names, index, rows, k, id);
    }
  }

  predicate Within(v: Value, bound: Option<Bound>) {
    match bound
    case None => true
    case Some(Bound(op, w)) => StoreMatches(v, op, w)
  }

  /** A key is in range when it is the prefix, a value within both bounds, and anything after that. */
  lemma InRangeMeans(key: Key, prefix: Key, lower: Option<Bound>, upper: Option<Bound>)
    ensures InRange(key, prefix, lower, upper) <==>
            exists v, rest :: key == prefix + [v] + rest && Within(v, lower) && Within(v, upper)
  {
    if InRange(key, prefix, lower, upper) {
      assert key == prefix + [key[|prefix|]] + key[|prefix| + 1..];
    }
  }
}
