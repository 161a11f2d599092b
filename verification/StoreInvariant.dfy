/** What every reachable store satisfies: indexes equal to what the rows project to, unique keys,
    distinct primary keys and row ids that cannot collide. */
module StoreInvariant {
  import opened Common
  import opened Values
  import opened CheckExprs
  import opened Schemas
  import opened StoreSpec

  // ----- Index contents ----------------------------------------------------

  /** The key of every row under an index's columns. */
  function KeyMap(names: seq<string>, columns: seq<string>, rows: Rows): map<nat, Key> {
    map id | id in rows :: KeyOf(names, columns, rows[id])
  }

  /** The index a key map calls for: each key with exactly the ids that have it, and no empty bucket. */
  ghost function Invert(keys: map<nat, Key>): Entries {
    map k | k in keys.Values :: set id | id in keys && keys[id] == k
  }

  lemma InvertAdd(keys: map<nat, Key>, id: nat, key: Key)
    requires id !in keys
    ensures Invert(keys[id := key]) == AddEntry(Invert(keys), key, id)
  {
    var keys' := keys[id := key];
    assert forall i :: i in keys ==> keys'[i] == keys[i];
    assert keys'.Values == keys.Values + {key} by {
      forall k ensures k in keys'.Values <==> k in keys.Values + {key} {
        if k in keys.Values { var i :| i in keys && keys[i] == k; assert keys'[i] == k; }
        if k == key { assert keys'[id] == k; }
      }
    }
    var left, right := Invert(keys'), AddEntry(Invert(keys), key, id);
    assert left.Keys == right.Keys;
    forall k | k in left ensures left[k] == right[k] {
      forall i ensures i in left[k] <==> i in right[k] {
      }
    }
  }

  lemma InvertRemove(keys: map<nat, Key>, id: nat)
    requires id in keys
    ensures Invert(keys - {id}) == RemoveEntry(Invert(keys), keys[id], id)
  {
    var keys', key := keys - {id}, keys[id];
    InvertAdd(keys', id, key);
    assert keys'[id := key] == keys;
    var smaller := Invert(keys');
    var bucket := (if key in smaller then smaller[key] else {}) + {id};
    assert Invert(keys) == smaller[key := bucket];
    if key in smaller {
      assert id !in smaller[key];
      assert bucket - {id} == smaller[key];
      var i :| i in keys' && keys'[i] == key;
      assert i in smaller[key];
      assert smaller[key := bucket][key := bucket - {id}] == smaller;
    } else {
      assert bucket - {id} == {};
      assert smaller[key := bucket] - {key} == smaller;
    }
  }

  lemma KeyTakenMeans(index: IndexState, keys: map<nat, Key>, key: Key)
    requires index.entries == Invert(keys)
    ensures KeyTaken(index, key) <==> EnforcesUnique(index.meta, key) && exists id :: id in keys && keys[id] == key
  {
    if id :| id in keys && keys[id] == key {
      assert key in keys.Values;
      assert id in index.entries[key];
    }
    if key in index.entries {
      var id :| id in keys && keys[id] == key;
    }
  }

  ghost predicate ColumnsKnown(names: seq<string>, columns: seq<string>) {
    forall c :: c in columns ==> c in names
  }

  /** An index is right for a set of rows: its buckets are exactly the rows' keys, and a key it must
      keep unique belongs to one row at most. Only on an empty table can its columns be missing. */
  ghost predicate IndexOk(names: seq<string>, index: IndexState, rows: Rows) {
    var keys := KeyMap(names, index.meta.columns, rows);
    && index.meta.columns != []
    && (rows != map[] ==> ColumnsKnown(names, index.meta.columns))
    && index.entries == Invert(keys)
    && UniqueKeys(index.meta, keys)
  }

  ghost predicate UniqueKeys(meta: IndexMeta, keys: map<nat, Key>) {
    forall a, b :: !Clash(meta, keys, a, b)
  }

  /** Two rows share a key that has to be unique. */
  ghost predicate Clash(meta: IndexMeta, keys: map<nat, Key>, a: nat, b: nat) {
    a in keys && b in keys && a != b && keys[a] == keys[b] && meta.unique && Null !in keys[a]
  }

  lemma KeyMapAdd(names: seq<string>, columns: seq<string>, rows: Rows, id: nat, row: Row)
    ensures KeyMap(names, columns, rows[id := row]) == KeyMap(names, columns, rows)[id := KeyOf(names, columns, row)]
  {
  }

  lemma KeyMapRemove(names: seq<string>, columns: seq<string>, rows: Rows, id: nat)
    ensures KeyMap(names, columns, rows - {id}) == KeyMap(names, columns, rows) - {id}
  {
  }

  lemma UniqueKeysAdd(meta: IndexMeta, keys: map<nat, Key>, id: nat, key: Key)
    requires UniqueKeys(meta, keys) && id !in keys
    requires EnforcesUnique(meta, key) ==> forall a :: a in keys ==> keys[a] != key
    ensures UniqueKeys(meta, keys[id := key])
  {
    var larger := keys[id := key];
    forall a, b ensures !Clash(meta, larger, a, b) {
      assert !Clash(meta, keys, a, b);
    }
  }

  lemma UniqueKeysRemove(meta: IndexMeta, keys: map<nat, Key>, id: nat)
    requires UniqueKeys(meta, keys)
    ensures UniqueKeys(meta, keys - {id})
  {
    var smaller := keys - {id};
    forall a, b ensures !Clash(meta, smaller, a, b) {
      assert !Clash(meta, keys, a, b);
    }
  }

  ghost predicate IndexesOk(names: seq<string>, indexes: Indexes, rows: Rows) {
    forall n {:trigger IndexOk(names, indexes[n], rows)} :: n in indexes ==>
        indexes[n].meta.name == n && IndexOk(names, indexes[n], rows)
  }

  /** The contents of a coherent index are determined by the rows and its definition. */
  lemma IndexesDetermined(names: seq<string>, a: Indexes, b: Indexes, rows: Rows)
    requires IndexesOk(names, a, rows) && IndexesOk(names, b, rows)
    requires a.Keys == b.Keys && forall n :: n in a ==> a[n].meta == b[n].meta
    ensures a == b
  {
    forall n | n in a ensures a[n] == b[n] {
      assert IndexOk(names, a[n], rows) && IndexOk(names, b[n], rows);
    }
  }

  lemma ProjectsWhenKnown(names: seq<string>, columns: seq<string>, row: Row)
    requires ColumnsKnown(names, columns) && |row| == |names|
    ensures ProjectKey(names, columns, row) == Some(KeyOf(names, columns, row))
  {
  }

  /** The index can take the row: its columns exist and no row holds a key the new row must have alone. */
  ghost predicate Accepts(names: seq<string>, index: IndexState, rows: Rows, row: Row) {
    var key := KeyOf(names, index.meta.columns, row);
    && ColumnsKnown(names, index.meta.columns)
    && (index.meta.unique && Null !in key ==> forall id :: id in rows ==>
        KeyOf(names, index.meta.columns, rows[id]) != key)
  }

  /** The test the store makes on a right index means just that. */
  lemma AddableIff(names: seq<string>, index: IndexState, rows: Rows, row: Row)
    requires IndexOk(names, index, rows) && |row| == |names|
    ensures Addable(names, index, row) <==> Accepts(names, index, rows, row)
  {
    var columns := index.meta.columns;
    var keys, key := KeyMap(names, columns, rows), KeyOf(names, columns, row);
    KeyTakenMeans(index, keys, key);
    if ColumnsKnown(names, columns) {
      ProjectsWhenKnown(names, columns, row);
      if id :| id in rows && KeyOf(names, columns, rows[id]) == key { assert keys[id] == key; }
    } else {
      var c :| c in columns && c !in names;
      assert Lookup(names, row, c).Err?;
    }
  }

  lemma WithRowOk(names: seq<string>, index: IndexState, rows: Rows, id: nat, row: Row)
    requires IndexOk(names, index, rows) && id !in rows && |row| == |names| && Accepts(names, index, rows, row)
    ensures Addable(names, index, row)
    ensures IndexOk(names, WithRow(names, index, id, row), rows[id := row])
  {
    var columns := index.meta.columns;
    var keys, key := KeyMap(names, columns, rows), KeyOf(names, columns, row);
    AddableIff(names, index, rows, row);
    InvertAdd(keys, id, key);
    KeyMapAdd(names, columns, rows, id, row);
    UniqueKeysAdd(index.meta, keys, id, key);
  }

  lemma WithoutRowOk(names: seq<string>, index: IndexState, rows: Rows, id: nat)
    requires IndexOk(names, index, rows) && id in rows && |rows[id]| == |names|
    ensures ProjectKey(names, index.meta.columns, rows[id]).Some?
    ensures IndexOk(names, WithoutRow(names, index, id, rows[id]), rows - {id})
  {
    var columns := index.meta.columns;
    var keys := KeyMap(names, columns, rows);
    ProjectsWhenKnown(names, columns, rows[id]);
    InvertRemove(keys, id);
    KeyMapRemove(names, columns, rows, id);
    UniqueKeysRemove(index.meta, keys, id);
  }

  /** Adding a row under a fresh id succeeds and keeps every index right. */
  lemma AddRowOk(names: seq<string>, indexes: Indexes, rows: Rows, id: nat, row: Row)
    requires IndexesOk(names, indexes, rows) && id !in rows && |row| == |names|
    requires forall n :: n in indexes ==> Accepts(names, indexes[n], rows, row)
    ensures AddRow(names, indexes, id, row).Some?
    ensures var added := AddRow(names, indexes, id, row).value;
            added.Keys == indexes.Keys && IndexesOk(names, added, rows[id := row]) &&
            forall n :: n in indexes ==> added[n].meta == indexes[n].meta
  {
    forall n | n in indexes
      ensures Addable(names, indexes[n], row) && IndexOk(names, WithRow(names, indexes[n], id, row), rows[id := row])
    {
      assert IndexOk(names, indexes[n], rows);
      WithRowOk(names, indexes[n], rows, id, row);
    }
    var added := AddRow(names, indexes, id, row).value;
    forall n | n in added ensures added[n].meta.name == n && IndexOk(names, added[n], rows[id := row]) {
      assert IndexOk(names, indexes[n], rows);
    }
  }

  /** Removing a stored row succeeds and keeps every index right. */
  lemma RemoveRowOk(names: seq<string>, indexes: Indexes, rows: Rows, id: nat)
    requires IndexesOk(names, indexes, rows) && id in rows && |rows[id]| == |names|
    ensures RemoveRow(names, indexes, id, rows[id]).Some?
    ensures var cleared := RemoveRow(names, indexes, id, rows[id]).value;
            cleared.Keys == indexes.Keys && IndexesOk(names, cleared, rows - {id}) &&
            forall n :: n in indexes ==> cleared[n].meta == indexes[n].meta
  {
    forall n | n in indexes
      ensures ProjectKey(names, indexes[n].meta.columns, rows[id]).Some?
      ensures IndexOk(names, WithoutRow(names, indexes[n], id, rows[id]), rows - {id})
    {
      assert IndexOk(names, indexes[n], rows);
      WithoutRowOk(names, indexes[n], rows, id);
    }
    var cleared := RemoveRow(names, indexes, id, rows[id]).value;
    forall n | n in cleared ensures cleared[n].meta.name == n && IndexOk(names, cleared[n], rows - {id}) {
      assert IndexOk(names, indexes[n], rows);
    }
  }

  /** Filing in any order: it gets through if and only if every index takes the row, and then has filed it
      in all of them. An index that refuses is left as it was. */
  lemma {:induction false} FilesAll(names: seq<string>, indexes: Indexes, id: nat, row: Row, order: seq<string>)
    requires NoRepeats(order) && forall n :: n in order ==> n in indexes
    ensures var (filed, error) := FileInOrder(names, indexes, id, row, order);
            && filed.Keys == indexes.Keys
            && (error.None? <==> forall n :: n in order ==> Addable(names, indexes[n], row))
            && (error.None? ==>
                 forall n :: n in indexes ==> filed[n] == if n in order then WithRow(names, indexes[n], id, row)
                     else indexes[n])
            && (forall n :: n in indexes && !Addable(names, indexes[n], row) ==> filed[n] == indexes[n])
    decreases |order|
  {
    if order != [] {
      var n, rest := order[0], order[1..];
      assert order == [n] + rest;
      if Addable(names, indexes[n], row) {
        FilesAll(names, indexes[n := WithRow(names, indexes[n], id, row)], id, row, rest);
      }
    }
  }

  lemma FileInOrderIs(names: seq<string>, indexes: Indexes, id: nat, row: Row, order: seq<string>)
    requires Lists(order, indexes.Keys)
    ensures var (filed, error) := FileInOrder(names, indexes, id, row, order);
            AddRow(names, indexes, id, row) == if error.None? then Some(filed) else None
  {
    FilesAll(names, indexes, id, row, order);
    if AddRow(names, indexes, id, row).Some? {
      assert FileInOrder(names, indexes, id, row, order).0 == AddRow(names, indexes, id, row).value;
    }
  }

  // ----- Tables ------------------------------------------------------------

  /** When a table-level primary key names existing columns only, they are the flagged columns. */
  ghost predicate KeyAligned(schema: Schema) {
    var names := Names(schema);
    schema.primaryKeyConstraint.Some? && ColumnsKnown(names, schema.primaryKeyConstraint.value) ==>
      forall i :: 0 <= i < |names| ==> (schema.columns[i].primaryKey <==> names[i] in schema.primaryKeyConstraint.value)
  }

  ghost predicate RowsValid(schema: Schema, rows: Rows) {
    forall id {:trigger RowError(schema, rows[id])} :: id in rows ==> RowError(schema, rows[id]).None?
  }

  ghost predicate KeysDistinct(schema: Schema, rows: Rows) {
    HasPrimaryKey(schema) ==> forall a, b {:trigger SamePrimaryKey(schema, rows[a], rows[b])} ::
        a in rows && b in rows && a != b ==> !SamePrimaryKey(schema, rows[a], rows[b])
  }

  /** With an integer primary key a row's id is its key; otherwise every id is below the counter. */
  ghost predicate IdsOk(schema: Schema, rows: Rows, counter: nat) {
    match RowIdColumn(schema)
    case Some(i) => forall id :: id in rows ==> i < |rows[id]| && id <= MAX_I64 && rows[id][i] == Integer(id)
    case None => forall id :: id in rows ==> id < counter
  }

  ghost predicate TableOk(schema: Schema, rows: Rows, indexes: Indexes, counter: nat) {
    && DistinctNames(schema)
    && RowsValid(schema, rows)
    && KeysDistinct(schema, rows)
    && IdsOk(schema, rows, counter)
    && IndexesOk(Names(schema), indexes, rows)
  }

  ghost predicate KeysAgree(db: Db) {
    db.schemas.Keys == db.rows.Keys == db.indexes.Keys == db.counters.Keys
  }

  ghost predicate StoreOk(db: Db) {
    && KeysAgree(db)
    && forall t {:trigger TableAt(db, t)} :: t in db.schemas ==> TableAt(db, t)
  }

  ghost predicate TableAt(db: Db, t: string)
    requires KeysAgree(db) && t in db.schemas
  {
    db.schemas[t].name == t && TableOk(db.schemas[t], db.rows[t], db.indexes[t], db.counters[t])
  }

  lemma EmptyStoreOk()
    ensures StoreOk(Db(map[], map[], map[], map[]))
  {
  }

  // ----- Consequences ------------------------------------------------------

  lemma {:induction false} PositionOfDistinct(names: seq<string>, i: nat)
    requires i < |names| && forall a, b :: 0 <= a < b < |names| ==> names[a] != names[b]
    ensures Position(names, names[i]) == Some(i)
  {
  }

  /** A row that clashes with a stored one on a primary-key backing index clashes on the primary key,
      so skipping those indexes in the pre-check is safe. */
  lemma BackingKeyIsPrimaryKey(schema: Schema, meta: IndexMeta, table: string, a: Row, b: Row)
    requires DistinctNames(schema) && KeyAligned(schema)
    requires BacksPrimaryKey(schema, meta, table) && meta.columns != [] && ColumnsKnown(Names(schema), meta.columns)
    requires |a| == |schema.columns| == |b|
    requires KeyOf(Names(schema), meta.columns, a) == KeyOf(Names(schema), meta.columns, b)
    ensures HasPrimaryKey(schema) && SamePrimaryKey(schema, a, b)
  {
    var names := Names(schema);
    assert meta.columns[0] in meta.columns;
    var first :| 0 <= first < |names| && names[first] == meta.columns[0];
    assert schema.columns[first].primaryKey;
    forall i | 0 <= i < |schema.columns| && schema.columns[i].primaryKey ensures a[i] == b[i] {
      assert names[i] in meta.columns;
      var j :| 0 <= j < |meta.columns| && meta.columns[j] == names[i];
      PositionOfDistinct(names, i);
      assert KeyOf(names, meta.columns, a)[j] == a[i] && KeyOf(names, meta.columns, b)[j] == b[i];
    }
  }

  /** The pre-check of an insert passes over indexes that back the primary key. When the key is aligned
      and their columns exist, they refuse no row that passes the primary-key check. */
  lemma SkippedAddable(schema: Schema, table: string, index: IndexState, rows: Rows, row: Row)
    requires DistinctNames(schema) && KeyAligned(schema) && RowsValid(schema, rows) && |row| == |schema.columns|
    requires IndexOk(Names(schema), index, rows) && ColumnsKnown(Names(schema), index.meta.columns)
    requires BacksPrimaryKey(schema, index.meta, table) && PrimaryKeyFree(schema, row, rows, None)
    ensures Addable(Names(schema), index, row)
  {
    var names, columns := Names(schema), index.meta.columns;
    AddableIff(names, index, rows, row);
    forall id | id in rows ensures KeyOf(names, columns, rows[id]) != KeyOf(names, columns, row) {
      assert RowError(schema, rows[id]).None?;
      if KeyOf(names, columns, rows[id]) == KeyOf(names, columns, row) {
        BackingKeyIsPrimaryKey(schema, index.meta, table, rows[id], row);
      }
    }
  }

  // ----- Layout ------------------------------------------------------------

  /** Two schemas that differ only in names of the table, CHECKs, defaults, collations, foreign keys
      and table-level keys. */
  ghost predicate SameLayout(a: Schema, b: Schema) {
    && |a.columns| == |b.columns|
    && a.strict == b.strict && a.withoutRowid == b.withoutRowid
    && forall i :: 0 <= i < |a.columns| ==> SameColumnLayout(a.columns[i], b.columns[i])
  }

  predicate SameColumnLayout(a: ColumnDef, b: ColumnDef) {
    && a.name == b.name && a.columnType == b.columnType && a.nullable == b.nullable
    && a.primaryKey == b.primaryKey && a.primaryKeySort == b.primaryKeySort
  }

  lemma {:induction false} SameKeyColumns(a: Schema, b: Schema, i: nat)
    requires |a.columns| == |b.columns|
    requires forall j :: 0 <= j < |a.columns| ==> a.columns[j].primaryKey == b.columns[j].primaryKey
    ensures KeyColumnsFrom(a, i) == KeyColumnsFrom(b, i)
    decreases |a.columns| - i
  {
    if i < |a.columns| {
      SameKeyColumns(a, b, i + 1);
    }
  }

  lemma SameFlagsSameKeys(a: Schema, b: Schema, rows: Rows)
    requires |a.columns| == |b.columns| && KeysDistinct(a, rows)
    requires forall j :: 0 <= j < |a.columns| ==> a.columns[j].primaryKey == b.columns[j].primaryKey
    ensures KeysDistinct(b, rows)
  {
    if HasPrimaryKey(b) {
      assert HasPrimaryKey(a);
      forall r, s | r in rows && s in rows && r != s ensures !SamePrimaryKey(b, rows[r], rows[s]) {
        assert !SamePrimaryKey(a, rows[r], rows[s]);
      }
    }
  }

  /** Being right depends on the layout only. */
  lemma LayoutKeepsTableOk(a: Schema, b: Schema, rows: Rows, indexes: Indexes, counter: nat)
    requires SameLayout(a, b) && TableOk(a, rows, indexes, counter)
    ensures TableOk(b, rows, indexes, counter)
  {
    assert Names(a) == Names(b);
    SameKeyColumns(a, b, 0);
    assert RowIdColumn(a) == RowIdColumn(b);
    forall id | id in rows ensures RowError(b, rows[id]).None? {
      assert RowError(a, rows[id]).None?;
      forall j | 0 <= j < |rows[id]| ensures ColumnError(b, b.columns[j], rows[id][j]).None? {
        assert ColumnError(a, a.columns[j], rows[id][j]).None?;
      }
    }
    SameFlagsSameKeys(a, b, rows);
  }

  // ----- Equality up to counters -------------------------------------------

  /** The same schemas, rows and indexes; row-id counters may only have advanced. */
  ghost predicate SameUpToCounters(a: Db, b: Db) {
    && a.schemas == b.schemas && a.rows == b.rows && a.indexes == b.indexes
    && a.counters.Keys == b.counters.Keys
    && forall t :: t in b.counters ==> a.counters[t] >= b.counters[t]
  }

  lemma AdvancedCountersOk(a: Db, b: Db)
    requires SameUpToCounters(a, b) && StoreOk(b)
    ensures StoreOk(a)
  {
    forall t | t in a.schemas ensures TableAt(a, t) {
      assert TableAt(b, t);
    }
  }
}
