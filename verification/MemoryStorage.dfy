/** The store as the mutable object it is: four maps, a transaction with its undo log and savepoints,
    and methods that edit them in place. Each method is proved to do what the value-level operation
    says; `Valid` is the session invariant, so it carries the whole-run guarantees. */
module MemoryStorages {
  import opened Common
  import opened Values
  import opened Schemas
  import opened Ascending
  import opened StoreSpec
  import opened StoreInvariant
  import opened StoreRows
  import opened Transactions
  import opened IndexScans

  // ----- Loops over a table's indexes ---------------------------------------

  /** The order in which a map is walked: some listing of its keys. */
  method OrderOf(names: set<string>) returns (order: seq<string>)
    ensures Lists(order, names)
  {
    order := [];
    var left := names;
    while left != {}
      invariant left <= names && NoRepeats(order)
      invariant forall m :: m in order <==> m in names && m !in left
      decreases |left|
    {
      var n :| n in left;
      assert forall i :: 0 <= i < |order| ==> order[i] in order;
      order := order + [n];
      left := left - {n};
    }
  }

  /** Adding a row index by index; it stops at the first index that refuses. */
  method AddToEach(names: seq<string>, before: Indexes, id: nat, row: Row, order: seq<string>)
      returns (current: Indexes, error: Option<Error>)
    requires forall n :: n in order ==> n in before
    ensures (current, error) == FileInOrder(names, before, id, row, order)
  {
    current := before;
    var i := 0;
    assert order[0..] == order;
    while i < |order|
      invariant 0 <= i <= |order| && current.Keys == before.Keys
      invariant FileInOrder(names, before, id, row, order) == FileInOrder(names, current, id, row, order[i..])
    {
      var n := order[i];
      assert n in order && order[i..][0] == n && order[i..][1..] == order[i + 1..];
      var index := current[n];
      var key := ProjectKey(names, index.meta.columns, row);
      if key.None? {
        return current, Some(UnknownColumn);
      }
      if EnforcesUnique(index.meta, key.value) && key.value in index.entries && index.entries[key.value] != {} {
        return current, Some(UniqueFailed);
      }
      current := current[n := index.(entries := AddEntry(index.entries, key.value, id))];
      i := i + 1;
    }
    error := None;
  }

  /** The loop of `validate_unique_index_constraints`: the first refusal among the indexes it looks at. */
  method FirstUniqueRefusal(schema: Schema, table: string, indexes: Indexes, row: Row, order: seq<string>)
      returns (error: Option<Error>)
    requires forall n :: n in order ==> n in indexes
    ensures error == UniqueRefusal(schema, table, indexes, row, order)
  {
    var i := 0;
    assert order[0..] == order;
    while i < |order|
      invariant 0 <= i <= |order|
      invariant UniqueRefusal(schema, table, indexes, row, order) ==
        UniqueRefusal(schema, table, indexes, row, order[i..])
    {
      var n := order[i];
      assert n in order && order[i..][0] == n && order[i..][1..] == order[i + 1..];
      i := i + 1;
      if BacksPrimaryKey(schema, indexes[n].meta, table) {
        continue;
      }
      var key := ProjectKey(Names(schema), indexes[n].meta.columns, row);
      if key.None? {
        return Some(UnknownColumn);
      }
      if KeyTaken(indexes[n], key.value) {
        return Some(UniqueFailed);
      }
    }
    error := None;
  }

  /** The row is out of some indexes; an index that it has no key in, and any not yet visited, is as it was. */
  ghost predicate PartlyRemoved(names: seq<string>, before: Indexes, current: Indexes, id: nat, row: Row) {
    && current.Keys == before.Keys
    && (forall n :: n in before ==> current[n] == before[n] || Removed(names, before[n], current[n], id, row))
    && (exists n :: n in before && ProjectKey(names, before[n].meta.columns, row).None? && current[n] == before[n])
  }

  predicate Removed(names: seq<string>, before: IndexState, after: IndexState, id: nat, row: Row) {
    ProjectKey(names, before.meta.columns, row).Some? && after == WithoutRow(names, before, id, row)
  }

  /** Removing a row index by index, dropping buckets that become empty; it stops at the first index that
      the row has no key in. */
  method RemoveFromEach(names: seq<string>, before: Indexes, id: nat, row: Row)
      returns (current: Indexes, error: Option<Error>)
    ensures error.None? <==> RemoveRow(names, before, id, row).Some?
    ensures error.None? ==> RemoveRow(names, before, id, row) == Some(current)
    ensures error.Some? ==> error == Some(UnknownColumn) && PartlyRemoved(names, before, current, id, row)
  {
    current := before;
    var left := before.Keys;
    while left != {}
      invariant current.Keys == before.Keys && left <= before.Keys
      invariant forall n :: n in before ==> current[n] == if n in left then before[n]
        else WithoutRow(names, before[n], id, row)
      invariant forall n :: n in before && n !in left ==> ProjectKey(names, before[n].meta.columns, row).Some?
      decreases |left|
    {
      var n :| n in left;
      var index := current[n];
      var key := ProjectKey(names, index.meta.columns, row);
      if key.None? {
        return current, Some(UnknownColumn);
      }
      var entries := RemoveFromBucket(index.entries, key.value, id);
      current := current[n := index.(entries := entries)];
      left := left - {n};
    }
    assert forall n :: n in before ==> ProjectKey(names, before[n].meta.columns, row).Some?;
    assert current == RemoveRow(names, before, id, row).value;
    error := None;
  }

  method RemoveFromBucket(before: Entries, key: Key, id: nat) returns (entries: Entries)
    ensures entries == RemoveEntry(before, key, id)
  {
    entries := before;
    if key in entries {
      entries := entries[key := entries[key] - {id}];
      if entries[key] == {} {
        entries := entries - {key};
        assert entries == before - {key};
      }
    }
  }

  /** Filling one index from the rows in ascending id order. */
  method FillFrom(names: seq<string>, columns: seq<string>, stored: Rows) returns (entries: Entries, ok: bool)
    ensures (entries, ok) == FillEntries(names, columns, stored, Sorted(stored.Keys), map[])
  {
    var ids := Sorted(stored.Keys);
    entries := map[];
    var i := 0;
    assert ids[0..] == ids;
    while i < |ids|
      invariant 0 <= i <= |ids|
      invariant FillEntries(names, columns, stored, ids, map[]) ==
        FillEntries(names, columns, stored, ids[i..], entries)
    {
      assert ids[i] in ids;
      assert ids[i..][0] == ids[i] && ids[i..][1..] == ids[i + 1..];
      var key := ProjectKey(names, columns, stored[ids[i]]);
      if key.None? {
        return entries, false;
      }
      entries := AddEntry(entries, key.value, ids[i]);
      i := i + 1;
    }
    ok := true;
  }

  /** Refilling index by index; it stops at the first that cannot be filled. The order of the visits
      is returned. */
  method RefillEach(names: seq<string>, stored: Rows, before: Indexes)
      returns (current: Indexes, error: Option<Error>, ghost order: seq<string>)
    ensures forall n :: n in order <==> n in before
    ensures (current, error.None?) == RebuildIndexes(names, stored, before, order)
    ensures error.Some? ==> error == Some(UnknownColumn)
  {
    current := before;
    var left := before.Keys;
    order := [];
    while left != {}
      invariant current.Keys == before.Keys && left <= before.Keys
      invariant forall n :: n in order <==> n in before && n !in left
      invariant RebuildIndexes(names, stored, before, order) == (current, true)
      decreases |left|
    {
      var n :| n in left;
      var index := current[n];
      var entries, ok := FillFrom(names, index.meta.columns, stored);
      RebuildOneMore(names, stored, before, order, n);
      current := current[n := index.(entries := entries)];
      if !ok {
        ghost var rest := Listed(left - {n});
        RebuildStops(names, stored, before, order + [n], rest);
        order := order + [n] + rest;
        return current, Some(UnknownColumn), order;
      }
      order := order + [n];
      left := left - {n};
    }
    error := None;
  }

  class MemoryStorage {
    var schemas: map<string, Schema>
    var rows: map<string, Rows>
    var indexes: map<string, Indexes>
    var nextRowIds: map<string, nat>
    var nextTxnId: nat
    var activeTxn: Option<ActiveTransaction>
    const env: Env

    // The history the invariant speaks about.
    ghost var base: Db
    ghost var marks: seq<Db>

    constructor (env: Env)
      ensures Valid() && State() == EmptyStore() && this.env == env
    {
      schemas, rows, indexes, nextRowIds := map[], map[], map[], map[];
      nextTxnId, activeTxn := 1, None;
      this.env := env;
      base, marks := Db(map[], map[], map[], map[]), [];
      new;
      EmptyStoreOk();
    }

    ghost function Contents(): Db
      reads this
    {
      Db(schemas, rows, indexes, nextRowIds)
    }

    ghost function State(): Store
      reads this
    {
      Store(Contents(), nextTxnId, activeTxn)
    }

    ghost function History(): Session
      reads this
    {
      Session(State(), base, marks)
    }

    ghost predicate Valid()
      reads this
    {
      SessionOk(History())
    }

    // ----- Helpers ---------------------------------------------------------

    predicate Permits(id: nat)
      reads this
    {
      activeTxn.Some? && activeTxn.value.id == id
    }

    method RecordUndo(u: UndoOp)
      modifies this`activeTxn
      ensures activeTxn == if old(activeTxn).Some?
              then Some(old(activeTxn).value.(undoLog := old(activeTxn).value.undoLog + [u])) else None
    {
      if activeTxn.Some? {
        activeTxn := Some(activeTxn.value.(undoLog := activeTxn.value.undoLog + [u]));
      }
    }

    /** `next_row_id`. */
    method NextId(table: string) returns (id: nat)
      modifies this`nextRowIds
      ensures (id, nextRowIds) == NextRowId(old(nextRowIds), table)
    {
      if table !in nextRowIds {
        nextRowIds := nextRowIds[table := 1];
      }
      id := nextRowIds[table];
      nextRowIds := nextRowIds[table := id + 1];
      assert nextRowIds == old(nextRowIds)[table := id + 1];
    }

    /** `add_row_to_indexes`: index by index, stopping at the first that refuses. */
    method AddRowToIndexes(table: string, id: nat, row: Row, order: seq<string>) returns (error: Option<Error>)
      requires Lists(order, IndexesOf(Contents(), table).Keys)
      modifies this`indexes
      ensures table !in schemas ==> error.Some? && indexes == old(indexes)
      ensures table in schemas && table !in old(indexes) ==> error.None? && indexes == old(indexes)
      ensures table in schemas && table in old(indexes) ==>
        var (filed, refusal) := FileInOrder(Names(schemas[table]), old(indexes[table]), id, row, order);
        error == refusal && indexes == old(indexes)[table := filed] &&
        AddRow(Names(schemas[table]), old(indexes[table]), id, row) == if error.None? then Some(filed) else None
    {
      if table !in schemas {
        return Some(UnknownTable);
      }
      if table !in indexes {
        return None;
      }
      FileInOrderIs(Names(schemas[table]), indexes[table], id, row, order);
      var updated;
      updated, error := AddToEach(Names(schemas[table]), indexes[table], id, row, order);
      indexes := indexes[table := updated];
    }

    /** `remove_row_from_indexes`. */
    method RemoveRowFromIndexes(table: string, id: nat, row: Row) returns (error: Option<Error>)
      modifies this`indexes
      ensures table !in schemas ==> error.Some? && indexes == old(indexes)
      ensures table in schemas && table !in old(indexes) ==> error.None? && indexes == old(indexes)
      ensures table in schemas && table in old(indexes) ==>
        var cleared := RemoveRow(Names(schemas[table]), old(indexes[table]), id, row);
        (error.None? <==> cleared.Some?) && (cleared.Some? ==> indexes == old(indexes)[table := cleared.value])
    {
      if table !in schemas {
        return Some(UnknownTable);
      }
      if table !in indexes {
        return None;
      }
      var updated;
      updated, error := RemoveFromEach(Names(schemas[table]), indexes[table], id, row);
      indexes := indexes[table := updated];
    }

    /** `rebuild_indexes_for_schema`; the order the indexes were visited in is returned. */
    method RebuildIndexesFor(table: string, schema: Schema, stored: Rows)
        returns (error: Option<Error>, ghost order: seq<string>)
      requires table in indexes
      modifies this`indexes
      ensures forall n :: n in order <==> n in old(indexes[table])
      ensures var (rebuilt, ok) := RebuildIndexes(Names(schema), stored, old(indexes[table]), order);
              indexes == old(indexes)[table := rebuilt] && error == if ok then None else Some(UnknownColumn)
    {
      var updated;
      updated, error, order := RefillEach(Names(schema), stored, indexes[table]);
      indexes := indexes[table := updated];
    }

    /** `apply_undo`. */
    method ApplyUndoRecord(u: UndoOp) returns (error: Option<Error>)
      modifies this`schemas, this`rows, this`indexes, this`nextRowIds
      ensures match ApplyUndo(old(Contents()), u)
              case None => error.Some?
              case Some(db) => error.None? && Contents() == db
    {
      error := None;
      match u
      case UndoDropSchema(t) =>
        schemas, rows, indexes, nextRowIds := schemas - {t}, rows - {t}, indexes - {t}, nextRowIds - {t};
      case UndoDropIndex(t, i) =>
        if t in indexes {
          indexes := indexes[t := indexes[t] - {i}];
        }
      case RestoreTable(schema, stored, tableIndexes, counter) =>
        var t := schema.name;
        schemas := schemas[t := schema];
        rows := rows[t := stored];
        indexes := indexes[t := tableIndexes];
        if counter.Some? {
          nextRowIds := nextRowIds[t := counter.value];
        }
      case RestoreIndex(t, i, state) =>
        indexes := indexes[t := (if t in indexes then indexes[t] else map[])[i := state]];
      case UndoInsert(t, id) => error := TakeBackInsert(t, id);
      case ReinsertRow(t, id, row) => error := TakeBackDelete(t, id, row);
      case RestoreRow(t, id, row) => error := TakeBackUpdate(t, id, row);
    }

    method TakeBackInsert(t: string, id: nat) returns (error: Option<Error>)
      modifies this`rows, this`indexes
      ensures match TakeBackInserted(old(Contents()), t, id)
              case None => error.Some?
              case Some(db) => error.None? && Contents() == db
    {
      error := None;
      if t in rows && id in rows[t] {
        var row := rows[t][id];
        rows := rows[t := rows[t] - {id}];
        error := RemoveRowFromIndexes(t, id, row);
      }
    }

    method TakeBackDelete(t: string, id: nat, row: Row) returns (error: Option<Error>)
      modifies this`rows, this`indexes, this`nextRowIds
      ensures match TakeBackDeleted(old(Contents()), t, id, row)
              case None => error.Some?
              case Some(db) => error.None? && Contents() == db
    {
      rows := rows[t := Put(if t in rows then rows[t] else map[], id, row)];
      nextRowIds := RaisedCounters(nextRowIds, t, id);
      var order := OrderOf(if t in indexes then indexes[t].Keys else {});
      error := AddRowToIndexes(t, id, row, order);
    }

    method TakeBackUpdate(t: string, id: nat, row: Row) returns (error: Option<Error>)
      modifies this`rows, this`indexes, this`nextRowIds
      ensures match TakeBackUpdated(old(Contents()), t, id, row)
              case None => error.Some?
              case Some(db) => error.None? && Contents() == db
    {
      hide AddRow, RemoveRow, RaisedCounters;
      var replaced := None;
      if t in rows {
        replaced := if id in rows[t] then Some(rows[t][id]) else None;
        rows := rows[t := Put(rows[t], id, row)];
      }
      error := Refile(t, id, replaced, row);
    }

    /** The index side of it: the replaced row out of the indexes, the restored one in. */
    method Refile(t: string, id: nat, replaced: Option<Row>, row: Row) returns (error: Option<Error>)
      modifies this`indexes, this`nextRowIds
      ensures t !in schemas ==> error.Some?
      ensures t in schemas ==>
        var before := IndexesOf(old(Contents()), t);
        var cleared := if replaced.None? then Some(before)
            else RemoveRow(Names(schemas[t]), before, id, replaced.value);
        if cleared.None? then error.Some?
        else if t !in old(indexes) then error.None? && indexes == old(indexes) &&
            nextRowIds == RaisedCounters(old(nextRowIds), t, id)
        else match AddRow(Names(schemas[t]), cleared.value, id, row)
          case None => error.Some?
          case Some(added) =>
            error.None? && indexes == old(indexes)[t := added] && nextRowIds == RaisedCounters(old(nextRowIds), t, id)
    {
      hide AddRow, RemoveRow, FileInOrder, RaisedCounters, NoRepeats;
      RemoveFromNone(if t in schemas then Names(schemas[t]) else [], id, if replaced.Some? then replaced.value else []);
      if replaced.Some? {
        error := RemoveRowFromIndexes(t, id, replaced.value);
        if error.Some? {
          return;
        }
      }
      nextRowIds := RaisedCounters(nextRowIds, t, id);
      var order := OrderOf(if t in indexes then indexes[t].Keys else {});
      error := AddRowToIndexes(t, id, row, order);
    }

    /** The replay loop of rollbacks: the last record first. */
    method Replay(log: seq<UndoOp>) returns (error: Option<Error>)
      modifies this`schemas, this`rows, this`indexes, this`nextRowIds
      ensures match Unwind(old(Contents()), log)
              case None => error.Some?
              case Some(db) => error.None? && Contents() == db
    {
      var i := |log|;
      assert log[..i] == log;
      while i > 0
        invariant 0 <= i <= |log|
        invariant Unwind(Contents(), log[..i]) == Unwind(old(Contents()), log)
      {
        i := i - 1;
        assert log[..i + 1][..i] == log[..i];
        error := ApplyUndoRecord(log[i]);
        if error.Some? {
          return;
        }
      }
      error := None;
    }

    // ----- Transactions ----------------------------------------------------

    method BeginTransaction() returns (r: Result<nat>)
      requires Valid()
      modifies this
      ensures (State(), r.Err?) == (Step(env, old(State()), Begin).0, Step(env, old(State()), Begin).1.Some?)
      ensures r.Ok? ==> r.value == old(nextTxnId) && base == old(Contents()) && marks == []
      ensures Valid()
    {
      if activeTxn.Some? {
        return Err(TransactionError);
      }
      SafeStep(env, History(), Begin);
      var id := nextTxnId;
      nextTxnId := nextTxnId + 1;
      activeTxn := Some(ActiveTransaction(id, [], []));
      base, marks := Contents(), [];
      r := Ok(id);
    }

    method CommitTransaction(id: nat) returns (error: Option<Error>)
      requires Valid()
      modifies this`activeTxn
      ensures (State(), error) == Step(env, old(State()), On(id, Commit))
      ensures Valid()
    {
      if !Permits(id) {
        return Some(TransactionError);
      }
      activeTxn := None;
      error := None;
    }

    /** `rollback`: it never fails under its own transaction, and everything but row-id counters is
        back as it was at begin. */
    method RollbackTransaction(id: nat) returns (error: Option<Error>)
      requires Valid()
      modifies this`schemas, this`rows, this`indexes, this`nextRowIds, this`activeTxn
      ensures (State(), error) == Step(env, old(State()), On(id, Rollback))
      ensures old(Permits(id)) ==> error.None? && SameUpToCounters(Contents(), base)
      ensures Valid()
    {
      if !Permits(id) {
        return Some(TransactionError);
      }
      RollbackRestores(env, History(), id);
      SafeStep(env, History(), On(id, Rollback));
      var log := activeTxn.value.undoLog;
      activeTxn := None;
      error := Replay(log);
    }

    method CreateSavepoint(id: nat, name: string) returns (error: Option<Error>)
      requires Valid()
      modifies this`activeTxn, this`marks
      ensures (State(), error) == Step(env, old(State()), On(id, Mark(name)))
      ensures error.None? ==> marks == old(marks) + [old(Contents())]
      ensures Valid()
    {
      if !Permits(id) {
        return Some(TransactionError);
      }
      SafeStep(env, History(), On(id, Mark(name)));
      var txn := activeTxn.value;
      activeTxn := Some(txn.(savepoints := txn.savepoints + [Savepoint(name, |txn.undoLog|)]));
      marks := marks + [Contents()];
      error := None;
    }

    /** The search for the latest savepoint of a name. */
    method FindMark(savepoints: seq<Savepoint>, name: string) returns (r: Option<nat>)
      ensures r == LastMark(savepoints, name)
    {
      var i := |savepoints|;
      assert savepoints[..i] == savepoints;
      while i > 0
        invariant 0 <= i <= |savepoints| && LastMark(savepoints[..i], name) == LastMark(savepoints, name)
      {
        i := i - 1;
        assert savepoints[..i + 1][..i] == savepoints[..i];
        if SameName(savepoints[i].name, name) {
          return Some(i);
        }
      }
      r := None;
    }

    /** `rollback_to_savepoint`: back to the state at the latest live savepoint of the name. */
    method RollbackToSavepoint(id: nat, name: string) returns (error: Option<Error>)
      requires Valid()
      modifies this`schemas, this`rows, this`indexes, this`nextRowIds, this`activeTxn, this`marks
      ensures (State(), error) == Step(env, old(State()), On(id, RollbackTo(name)))
      ensures old(Permits(id)) && LastMark(old(activeTxn).value.savepoints, name).Some? ==>
        var k := LastMark(old(activeTxn).value.savepoints, name).value;
        error.None? && k < |old(marks)| && SameUpToCounters(Contents(), old(marks)[k]) && marks == old(marks)[..k + 1]
      ensures Valid()
    {
      hide Unwind, SameUpToCounters;
      ghost var was := History();
      if !Permits(id) {
        return Some(TransactionError);
      }
      RollbackToRestores(env, was, id, name);
      RollbackToKeepsSession(env, was, id, name);
      error := Rewind(id, name);
      marks := Record(env, was, On(id, RollbackTo(name))).marks;
    }

    /** The work of `rollback_to_savepoint`: find the mark, cut log and savepoints, replay the rest. */
    method Rewind(id: nat, name: string) returns (error: Option<Error>)
      requires Permits(id) && forall i :: 0 <= i < |activeTxn.value.savepoints| ==>
               activeTxn.value.savepoints[i].undoLen <= |activeTxn.value.undoLog|
      modifies this`schemas, this`rows, this`indexes, this`nextRowIds, this`activeTxn
      ensures LastMark(old(activeTxn).value.savepoints, name).None? ==>
              error == Some(NoSuchSavepoint) && State() == old(State())
      ensures LastMark(old(activeTxn).value.savepoints, name).Some? ==>
        var txn := old(activeTxn).value;
        var k := LastMark(txn.savepoints, name).value;
        var len := txn.savepoints[k].undoLen;
        activeTxn == Some(txn.(undoLog := txn.undoLog[..len], savepoints := txn.savepoints[..k + 1])) &&
        match Unwind(old(Contents()), txn.undoLog[len..])
        case None => error.Some?
        case Some(db) => error.None? && Contents() == db
    {
      var txn := activeTxn.value;
      var found := FindMark(txn.savepoints, name);
      if found.None? {
        return Some(NoSuchSavepoint);
      }
      var len := txn.savepoints[found.value].undoLen;
      activeTxn := Some(txn.(undoLog := txn.undoLog[..len], savepoints := txn.savepoints[..found.value + 1]));
      error := Replay(txn.undoLog[len..]);
    }

    method ReleaseSavepoint(id: nat, name: string) returns (error: Option<Error>)
      requires Valid()
      modifies this`activeTxn, this`marks
      ensures (State(), error) == Step(env, old(State()), On(id, Release(name)))
      ensures Valid()
    {
      hide StoreOk, LeadsTo;
      if !Permits(id) {
        return Some(TransactionError);
      }
      SafeStep(env, History(), On(id, Release(name)));
      var txn := activeTxn.value;
      var found := FindMark(txn.savepoints, name);
      if found.None? {
        return Some(NoSuchSavepoint);
      }
      activeTxn := Some(txn.(savepoints := txn.savepoints[..found.value]));
      marks := marks[..found.value];
      error := None;
    }

    // ----- Row operations --------------------------------------------------
    // Each method does what the value-level operation says; `Execute` below adds that the safe ones
    // keep the object valid.

    method InsertInto(id: nat, table: string, row: Row) returns (r: Result<nat>, order: seq<string>)
      requires KeysAgree(Contents())
      modifies this`rows, this`indexes, this`nextRowIds, this`activeTxn
      ensures Lists(order, IndexesOf(old(Contents()), table).Keys)
      ensures !old(Permits(id)) ==> r == Err(TransactionError) && State() == old(State())
      ensures old(Permits(id)) ==> var (e, inserted) := InsertRow(env, old(Contents()), table, row, order);
              State() == After(old(State()), e) &&
              match r
              case Ok(rowId) => inserted == Some(rowId) && e.error.None?
              case Err(error) => inserted.None? && e.error == Some(error)
    {
      hide FileInOrder, InsertError, PlaceInsert, AddRow, RowIdColumn;
      order := OrderOf(if table in indexes then indexes[table].Keys else {});
      if !Permits(id) {
        return Err(TransactionError), order;
      }
      assert activeTxn.value.undoLog + [] == activeTxn.value.undoLog;
      if table !in schemas {
        return Err(UnknownTable), order;
      }
      var schema := schemas[table];
      if |row| != |schema.columns| {
        return Err(WrongWidth), order;
      }
      var placed := Place(table, schema, row);
      if placed.Err? {
        return Err(placed.error), order;
      }
      var Placement(rowId, stored, _) := placed.value;
      var refused := CheckInsert(table, schema, stored, order);
      if refused.Some? {
        return Err(refused.value), order;
      }
      rows := rows[table := Put(rows[table], rowId, stored)];
      var failed := AddRowToIndexes(table, rowId, stored, order);
      if failed.Some? {
        return Err(failed.value), order;
      }
      RecordUndo(UndoInsert(table, rowId));
      r := Ok(rowId);
    }

    /** The checks of `insert_row`, one after the other. */
    method CheckInsert(table: string, schema: Schema, row: Row, order: seq<string>) returns (error: Option<Error>)
      requires table in rows && table in indexes && forall n :: n in order ==> n in indexes[table]
      ensures error == InsertError(env, schema, table, rows[table], indexes[table], row, order)
    {
      error := RowError(schema, row);
      if error.Some? {
        return;
      }
      if !env.ignoreChecks {
        error := CheckError(env, schema, row);
        if error.Some? {
          return;
        }
      }
      if !PrimaryKeyFree(schema, row, rows[table], None) {
        return Some(DuplicatePrimaryKey);
      }
      error := FirstUniqueRefusal(schema, table, indexes[table], row, order);
    }

    /** Choosing the row id: the integer primary key, or the next counter value. */
    method Place(table: string, schema: Schema, row: Row) returns (placed: Result<Placement>)
      requires |row| == |schema.columns|
      modifies this`nextRowIds
      ensures (placed, nextRowIds) == PlaceInsert(old(Contents()), table, schema, row)
    {
      var column := RowIdColumn(schema);
      if column.None? {
        var next := NextId(table);
        return Ok(Placement(next, row, nextRowIds));
      }
      match row[column.value]
      case Integer(v) =>
        if v < 0 {
          return Err(BadRowId);
        }
        placed := Ok(Placement(v, row, nextRowIds));
      case Null =>
        var next := NextId(table);
        if next > MAX_I64 {
          return Err(BadRowId);
        }
        placed := Ok(Placement(next, row[column.value := Integer(next)], nextRowIds));
      case _ => placed := Err(BadRowId);
    }

    method DeleteFrom(id: nat, table: string, rowId: nat) returns (error: Option<Error>)
      requires StoreOk(Contents())
      modifies this`rows, this`indexes, this`activeTxn
      ensures !old(Permits(id)) ==> error == Some(TransactionError) && State() == old(State())
      ensures old(Permits(id)) ==> var e := DeleteRow(old(Contents()), table, rowId);
              State() == After(old(State()), e) && error == e.error
    {
      hide RemoveRow, StoreOk, Unwind, SessionOk;
      if !Permits(id) {
        return Some(TransactionError);
      }
      ghost var before := Contents();
      assert activeTxn.value.undoLog + [] == activeTxn.value.undoLog;
      error := None;
      if table in rows && rowId in rows[table] {
        DeleteStoredOk(before, table, rowId);
        var row := rows[table][rowId];
        rows := rows[table := rows[table] - {rowId}];
        error := RemoveRowFromIndexes(table, rowId, row);
        if error.Some? {
          return;
        }
        RecordUndo(ReinsertRow(table, rowId, row));
      }
    }

    method UpdateIn(id: nat, table: string, rowId: nat, row: Row) returns (error: Option<Error>)
      requires StoreOk(Contents())
      modifies this`rows, this`indexes, this`nextRowIds, this`activeTxn
      ensures !old(Permits(id)) ==> error == Some(TransactionError) && State() == old(State())
      ensures old(Permits(id)) ==> var e := UpdateRow(env, old(Contents()), table, rowId, row);
              State() == After(old(State()), e) && error == e.error
    {
      if !Permits(id) {
        return Some(TransactionError);
      }
      ghost var before := Contents();
      assert activeTxn.value.undoLog + [] == activeTxn.value.undoLog;
      if table !in schemas {
        return Some(UnknownTable);
      }
      var schema := schemas[table];
      if |row| != |schema.columns| {
        return Some(WrongWidth);
      }
      if rowId !in rows[table] {
        return None;
      }
      var existing := rows[table];
      var placed := PlaceUpdate(schema, rowId, row);
      if placed.Err? {
        return Some(placed.error);
      }
      var (target, stored) := placed.value;
      if existing[rowId] == stored && target == rowId {
        return None;
      }
      var refused := UpdateError(env, schema, existing, indexes[table], rowId, stored);
      if refused.Some? {
        return refused;
      }
      UpdateChecksSuffice(env, before, table, rowId, row);
      error := MoveRow(table, rowId, target, stored);
    }

    /** The end of `update_row`: out of the indexes and the old id, in under the target id. */
    method MoveRow(table: string, rowId: nat, target: nat, stored: Row) returns (error: Option<Error>)
      requires KeysAgree(Contents()) && activeTxn.Some?
      requires table in schemas && rowId in rows[table] && target !in rows[table] - {rowId}
      requires var cleared := RemoveRow(Names(schemas[table]), indexes[table], rowId, rows[table][rowId]);
               cleared.Some? && AddRow(Names(schemas[table]), cleared.value, target, stored).Some?
      modifies this`rows, this`indexes, this`nextRowIds, this`activeTxn
      ensures var e := StoreUpdated(old(Contents()), table, Names(schemas[table]), rowId, target, stored);
              State() == After(old(State()), e) && error == e.error
    {
      hide AddRow, RemoveRow;
      hide StoreUpdated, NoRepeats, FileInOrder;
      var existing := rows[table];
      ghost var names, was, wasRows := Names(schemas[table]), indexes, rows;
      StoreUpdatedIs(Contents(), table, names, rowId, target, stored);
      ghost var cleared := RemoveRow(names, indexes[table], rowId, existing[rowId]).value;
      ghost var added := AddRow(names, cleared, target, stored).value;
      error := RemoveRowFromIndexes(table, rowId, existing[rowId]);
      assert error.None? && indexes == was[table := cleared];
      if target != rowId && target in existing {
        assert false;
      }
      rows := rows[table := rows[table] - {rowId}];
      rows := rows[table := Put(rows[table], target, stored)];
      PutTwice(wasRows, table, existing - {rowId}, Put(existing - {rowId}, target, stored));
      nextRowIds := RaisedCounters(nextRowIds, table, target);
      var order := OrderOf(indexes[table].Keys);
      error := AddRowToIndexes(table, target, stored, order);
      PutTwice(was, table, cleared, added);
      assert error.None? && indexes == was[table := added];
      RecordUndo(RestoreRow(table, rowId, existing[rowId]));
    }

    // ----- Catalog operations ----------------------------------------------

    method CreateNewSchema(id: nat, schema: Schema) returns (error: Option<Error>)
      modifies this`schemas, this`rows, this`indexes, this`nextRowIds, this`activeTxn
      ensures !old(Permits(id)) ==> error == Some(TransactionError) && State() == old(State())
      ensures old(Permits(id)) ==> var e := CreateSchema(old(Contents()), schema);
              State() == After(old(State()), e) && error == e.error
    {
      if !Permits(id) {
        return Some(TransactionError);
      }
      assert activeTxn.value.undoLog + [] == activeTxn.value.undoLog;
      var t := schema.name;
      if t in schemas {
        return Some(TableExists);
      }
      RecordUndo(UndoDropSchema(t));
      schemas := schemas[t := schema];
      rows := rows[t := if t in rows then rows[t] else map[]];
      indexes := indexes[t := if t in indexes then indexes[t] else map[]];
      nextRowIds := nextRowIds[t := if t in nextRowIds then nextRowIds[t] else 1];
      error := None;
    }

    method DropExistingSchema(id: nat, table: string) returns (error: Option<Error>)
      modifies this`schemas, this`rows, this`indexes, this`nextRowIds, this`activeTxn
      ensures !old(Permits(id)) ==> error == Some(TransactionError) && State() == old(State())
      ensures old(Permits(id)) ==> var e := DropSchema(old(Contents()), table);
              State() == After(old(State()), e) && error == e.error
    {
      if !Permits(id) {
        return Some(TransactionError);
      }
      assert activeTxn.value.undoLog + [] == activeTxn.value.undoLog;
      if table !in schemas {
        return Some(UnknownTable);
      }
      RecordUndo(Snapshot(Db(schemas, rows, indexes, nextRowIds), table));
      schemas, rows, indexes, nextRowIds := schemas - {table}, rows - {table}, indexes - {table}, nextRowIds - {table};
      error := None;
    }

    method ReplaceExistingSchema(id: nat, schema: Schema) returns (error: Option<Error>)
      modifies this`schemas, this`activeTxn
      ensures !old(Permits(id)) ==> error == Some(TransactionError) && State() == old(State())
      ensures old(Permits(id)) ==> var e := ReplaceSchema(old(Contents()), schema);
              State() == After(old(State()), e) && error == e.error
    {
      if !Permits(id) {
        return Some(TransactionError);
      }
      assert activeTxn.value.undoLog + [] == activeTxn.value.undoLog;
      if schema.name !in schemas {
        return Some(UnknownTable);
      }
      RecordUndo(Snapshot(Db(schemas, rows, indexes, nextRowIds), schema.name));
      schemas := schemas[schema.name := schema];
      error := None;
    }

    /** The loop over referring tables; the order it visited them in is returned. */
    method ChangeEachReferrer(affected: set<string>, change: RefChange) returns (ghost order: seq<string>)
      requires activeTxn.Some? && affected <= schemas.Keys
      modifies this`schemas, this`activeTxn
      ensures forall t :: t in order <==> t in affected
      ensures State() == After(old(State()), ChangeReferrers(old(Contents()), order, change))
      ensures old(schemas).Keys == schemas.Keys
    {
      order := [];
      var left := affected;
      assert old(activeTxn).value.undoLog + [] == old(activeTxn).value.undoLog;
      while left != {}
        invariant left <= affected <= schemas.Keys && schemas.Keys == old(schemas).Keys
        invariant forall t :: t in order <==> t in affected && t !in left
        invariant State() == After(old(State()), ChangeReferrers(old(Contents()), order, change))
        decreases |left|
      {
        var t :| t in left;
        OneMoreReferrer(old(Contents()), order, t, change);
        LogOneMore(old(State()), ChangeReferrers(old(Contents()), order, change), Snapshot(Contents(), t));
        RecordUndo(Snapshot(Db(schemas, rows, indexes, nextRowIds), t));
        schemas := schemas[t := ChangeRefs(schemas[t], change)];
        order := order + [t];
        left := left - {t};
      }
    }

    method RenameExistingSchema(id: nat, from: string, to: string)
        returns (error: Option<Error>, ghost order: seq<string>)
      requires KeysAgree(Contents())
      modifies this`schemas, this`rows, this`indexes, this`nextRowIds, this`activeTxn
      ensures !old(Permits(id)) ==> error == Some(TransactionError) && State() == old(State())
      ensures old(Permits(id)) ==> var e := RenameSchema(old(Contents()), from, to, order);
              State() == After(old(State()), e) && error == e.error
      ensures to !in order
      ensures error.None? ==> from in old(schemas) && forall t :: t in order <==>
              t in Referrers(Moved(old(Contents()), from, to), from, None, to)
      ensures error.Some? && old(Permits(id)) ==> from !in old(schemas) || to in old(schemas)
    {
      order := [];
      if !Permits(id) {
        return Some(TransactionError), [];
      }
      assert activeTxn.value.undoLog + [] == activeTxn.value.undoLog;
      if to in schemas {
        return Some(TableExists), [];
      }
      if from !in schemas {
        return Some(UnknownTable), [];
      }
      ghost var was := State();
      MoveTable(from, to);
      ghost var moved := State();
      order := ChangeEachReferrer(Referrers(Db(schemas, rows, indexes, nextRowIds), from, None, to),
          TableRenamed(from, to));
      RenameSchemaIs(was, moved, State(), from, to, order);
      schemas := schemas[to := RenameRefTable(schemas[to], from, to)];
      error := None;
    }

    /** The start of `rename_schema`: both records, then the four entries under the new name. */
    method MoveTable(from: string, to: string)
      requires activeTxn.Some? && from in schemas
      modifies this`schemas, this`rows, this`indexes, this`nextRowIds, this`activeTxn
      ensures Contents() == Moved(old(Contents()), from, to)
      ensures activeTxn ==
              Some(old(activeTxn).value.(undoLog :=
                  old(activeTxn).value.undoLog + [Snapshot(old(Contents()), from), UndoDropSchema(to)]))
      ensures to in schemas
    {
      var now := Db(schemas, rows, indexes, nextRowIds);
      ghost var log := activeTxn.value.undoLog;
      RecordUndo(Snapshot(now, from));
      RecordUndo(UndoDropSchema(to));
      assert log + [Snapshot(now, from)] + [UndoDropSchema(to)] == log + [Snapshot(now, from), UndoDropSchema(to)];
      var moved := Moved(now, from, to);
      schemas, rows, indexes, nextRowIds := moved.schemas, moved.rows, moved.indexes, moved.counters;
    }

    method AddColumnTo(id: nat, table: string, column: ColumnDef) returns (error: Option<Error>)
      modifies this`schemas, this`rows, this`activeTxn
      ensures !old(Permits(id)) ==> error == Some(TransactionError) && State() == old(State())
      ensures old(Permits(id)) ==> var e := AddColumn(env, old(Contents()), table, column);
              State() == After(old(State()), e) && error == e.error
    {
      if !Permits(id) {
        return Some(TransactionError);
      }
      assert activeTxn.value.undoLog + [] == activeTxn.value.undoLog;
      if table !in schemas {
        return Some(UnknownTable);
      }
      var schema := schemas[table];
      if HasColumn(schema, column.name) {
        return Some(ColumnExists);
      }
      var updated := schema.(columns := schema.columns + [column]);
      if !ValidMetadata(updated) {
        return Some(BadMetadata);
      }
      var stored := if table in rows then rows[table] else map[];
      var normalized: Rows;
      normalized, error := RewriteEach(Extender(env, updated, column.defaultValue), stored, Sorted(stored.Keys));
      if error.Some? {
        return;
      }
      RecordUndo(Snapshot(Db(schemas, rows, indexes, nextRowIds), table));
      schemas := schemas[table := updated];
      if table in rows {
        rows := rows[table := normalized];
      }
    }

    method RenameColumnOf(id: nat, table: string, old_: string, new_: string)
        returns (error: Option<Error>, ghost order: seq<string>)
      modifies this`schemas, this`indexes, this`activeTxn
      ensures !old(Permits(id)) ==> error == Some(TransactionError) && State() == old(State())
      ensures old(Permits(id)) ==> var e := RenameColumn(old(Contents()), table, old_, new_, order);
              State() == After(old(State()), e) && error == e.error
      ensures table !in order &&
              (error.None? ==> forall t :: t in order <==> t in Referrers(old(Contents()), table, Some(old_), table))
    {
      order := [];
      if !Permits(id) {
        return Some(TransactionError), [];
      }
      assert activeTxn.value.undoLog + [] == activeTxn.value.undoLog;
      if table !in schemas {
        return Some(UnknownTable), [];
      }
      var schema := schemas[table];
      if !HasColumn(schema, old_) {
        return Some(UnknownColumn), [];
      }
      if HasColumn(schema, new_) {
        return Some(ColumnExists), [];
      }
      ghost var now := Contents();
      ghost var log := activeTxn.value.undoLog;
      RecordUndo(Snapshot(Db(schemas, rows, indexes, nextRowIds), table));
      var edited := EditColumnReferences(schema, old_, new_);
      var updated := RenameRefColumn(edited, table, old_, new_);
      if !ValidMetadata(updated) {
        return Some(BadMetadata), [];
      }
      order := RenameOwn(table, updated, old_, new_);
      ghost var own := OwnRenamed(now, table, updated, old_, new_);
      ghost var changed := ChangeReferrers(own, order, ColumnRenamed(table, old_, new_)).undo;
      assert log + [Snapshot(now, table)] + changed == log + ([Snapshot(now, table)] + changed);
      error := None;
    }

    /** The end of `rename_column`: the table's own schema and indexes, then the referring tables. */
    method RenameOwn(table: string, updated: Schema, old_: string, new_: string) returns (ghost order: seq<string>)
      requires activeTxn.Some? && table in schemas
      modifies this`schemas, this`indexes, this`activeTxn
      ensures var own := OwnRenamed(old(Contents()), table, updated, old_, new_);
              State() == After(old(State()).(db := own), ChangeReferrers(own, order, ColumnRenamed(table, old_, new_)))
      ensures forall t :: t in order <==> t in Referrers(old(Contents()), table, Some(old_), table)
    {
      ghost var was := Contents();
      schemas := schemas[table := updated];
      if table in indexes {
        indexes := indexes[table := RenameIndexColumns(indexes[table], old_, new_)];
      }
      order := ChangeEachReferrer(Referrers(Db(schemas, rows, indexes, nextRowIds), table, Some(old_), table),
          ColumnRenamed(table, old_, new_));
      SameReferrers(was, OwnRenamed(was, table, updated, old_, new_), table, Some(old_));
    }

    method DropColumnOf(id: nat, table: string, name: string) returns (error: Option<Error>, ghost order: seq<string>)
      modifies this`schemas, this`rows, this`indexes, this`activeTxn
      ensures !old(Permits(id)) ==> error == Some(TransactionError) && State() == old(State())
      ensures old(Permits(id)) ==> var e := DropTableColumn(old(Contents()), table, name, order);
              State() == After(old(State()), e) && error == e.error
      ensures old(Permits(id)) && table in old(schemas) && DropColumn(old(schemas)[table], name).Ok? ==>
              forall n :: n in IndexesOf(old(Contents()), table) ==> n in order
    {
      order := [];
      if !Permits(id) {
        return Some(TransactionError), [];
      }
      assert activeTxn.value.undoLog + [] == activeTxn.value.undoLog;
      if table !in schemas {
        return Some(UnknownTable), [];
      }
      var dropped := DropColumn(schemas[table], name);
      if dropped.Err? {
        return Some(dropped.error), [];
      }
      var (updated, index) := dropped.value;
      RecordUndo(Snapshot(Db(schemas, rows, indexes, nextRowIds), table));
      error, order := ShortenTable(table, updated, index);
    }

    /** The end of `drop_column`: the shorter schema and rows, then the indexes rebuilt. */
    method ShortenTable(table: string, updated: Schema, index: nat)
        returns (error: Option<Error>, ghost order: seq<string>)
      modifies this`schemas, this`rows, this`indexes
      ensures schemas == old(schemas)[table := updated]
      ensures rows == old(rows)[table := ShortenRows(RowsOf(old(Contents()), table), index)]
      ensures table !in old(indexes) ==> error.None? && indexes == old(indexes)
      ensures table in old(indexes) ==>
        var (rebuilt, ok) :=
            RebuildIndexes(Names(updated), ShortenRows(RowsOf(old(Contents()), table), index), old(indexes)[table],
                order);
        indexes == old(indexes)[table := rebuilt] && error == if ok then None else Some(UnknownColumn)
      ensures forall n :: n in IndexesOf(old(Contents()), table) ==> n in order
    {
      var shortened := ShortenRows(if table in rows then rows[table] else map[], index);
      schemas := schemas[table := updated];
      rows := rows[table := shortened];
      if table !in indexes {
        return None, [];
      }
      error, order := RebuildIndexesFor(table, updated, shortened);
    }

    // ----- Index operations ------------------------------------------------

    method CreateIndexOn(id: nat, table: string, meta: IndexMeta) returns (error: Option<Error>)
      modifies this`indexes, this`activeTxn
      ensures !old(Permits(id)) ==> error == Some(TransactionError) && State() == old(State())
      ensures old(Permits(id)) ==> var e := CreateIndex(old(Contents()), table, meta);
              State() == After(old(State()), e) && error == e.error
    {
      if !Permits(id) {
        return Some(TransactionError);
      }
      assert activeTxn.value.undoLog + [] == activeTxn.value.undoLog;
      if table !in schemas {
        return Some(UnknownTable);
      }
      var tableIndexes := if table in indexes then indexes[table] else map[];
      if meta.name in tableIndexes {
        return Some(IndexExists);
      }
      if meta.columns == [] {
        return Some(IndexWithoutColumns);
      }
      var built := BuildFrom(Names(schemas[table]), meta, if table in rows then rows[table] else map[]);
      if built.Err? {
        return Some(built.error);
      }
      RecordUndo(UndoDropIndex(table, meta.name));
      indexes := indexes[table := tableIndexes[meta.name := IndexState(meta, built.value)]];
      error := None;
    }

    method DropIndexOn(id: nat, table: string, index: string) returns (error: Option<Error>)
      modifies this`indexes, this`activeTxn
      ensures !old(Permits(id)) ==> error == Some(TransactionError) && State() == old(State())
      ensures old(Permits(id)) ==> var e := DropIndex(old(Contents()), table, index);
              State() == After(old(State()), e) && error == e.error
    {
      if !Permits(id) {
        return Some(TransactionError);
      }
      assert activeTxn.value.undoLog + [] == activeTxn.value.undoLog;
      if table !in indexes || index !in indexes[table] {
        return Some(UnknownIndex);
      }
      var removed := indexes[table][index];
      indexes := indexes[table := indexes[table] - {index}];
      RecordUndo(RestoreIndex(table, index, removed));
      error := None;
    }

    // ----- Every mutation --------------------------------------------------

    /** A mutation under a transaction id. `done` is the mutation with the iteration orders the
        object used; when it was safe the object stays valid. */
    method Execute(id: nat, op: Mutation) returns (error: Option<Error>, ghost done: Mutation)
      requires Valid()
      modifies this`schemas, this`rows, this`indexes, this`nextRowIds, this`activeTxn
      ensures (State(), error) == Step(env, old(State()), On(id, Do(done)))
      ensures SameCall(op, done) && (old(Permits(id)) ==> OrderOk(old(Contents()), done))
      ensures old(Permits(id)) && Ready(env, old(Contents()), op) && Undoable(old(Contents()), op) ==> Valid()
      ensures !old(Permits(id)) ==> Valid()
    {
      hide Did, Ready, Undoable, OrderOk, SessionOk, Step, SameCall;
      ghost var was := History();
      assert StoreOk(Contents()) && KeysAgree(Contents()) by { SessionHasStore(was); }
      if OnRows(op) {
        error, done := ExecuteOnRows(id, op);
      } else {
        error, done := ExecuteOnCatalog(id, op);
      }
      SameReady(env, was.store.db, op, done);
      StepKeepsSession(env, was, id, done, State(), error);
    }

    method ExecuteOnRows(id: nat, op: Mutation) returns (error: Option<Error>, ghost done: Mutation)
      requires StoreOk(Contents()) && OnRows(op)
      modifies this`rows, this`indexes, this`nextRowIds, this`activeTxn
      ensures Did(env, old(History()), id, done, State(), error)
      ensures SameCall(op, done) && OrderOk(old(Contents()), done)
    {
      done := op;
      match op {
        case Insert(t, row, _) =>
          var r, order := InsertInto(id, t, row);
          error := if r.Err? then Some(r.error) else None;
          done := Insert(t, row, order);
        case Delete(t, rowId) => error := DeleteFrom(id, t, rowId);
        case Update(t, rowId, row) => error := UpdateIn(id, t, rowId, row);
        case AddIndex(t, meta) => error := CreateIndexOn(id, t, meta);
        case RemoveIndex(t, i) => error := DropIndexOn(id, t, i);
      }
    }

    method ExecuteOnCatalog(id: nat, op: Mutation) returns (error: Option<Error>, ghost done: Mutation)
      requires KeysAgree(Contents()) && !OnRows(op)
      modifies this`schemas, this`rows, this`indexes, this`nextRowIds, this`activeTxn
      ensures Did(env, old(History()), id, done, State(), error)
      ensures SameCall(op, done) && (old(Permits(id)) ==> OrderOk(old(Contents()), done))
    {
      ghost var order;
      done := op;
      match op {
        case CreateTable(schema) => error := CreateNewSchema(id, schema);
        case DropTable(t) => error := DropExistingSchema(id, t);
        case ReplaceTable(schema) => error := ReplaceExistingSchema(id, schema);
        case RenameTable(a, b, _) =>
          error, order := RenameExistingSchema(id, a, b);
          done := RenameTable(a, b, order);
        case AddTableColumn(t, c) => error := AddColumnTo(id, t, c);
        case RenameTableColumn(t, a, b, _) =>
          error, order := RenameColumnOf(id, t, a, b);
          done := RenameTableColumn(t, a, b, order);
        case RemoveTableColumn(t, c, _) =>
          error, order := DropColumnOf(id, t, c);
          done := RemoveTableColumn(t, c, order);
      }
    }

    // ----- Reading ---------------------------------------------------------

    method GetRow(id: nat, table: string, rowId: nat) returns (r: Result<Option<Row>>)
      ensures Permits(id) ==>
              r == Ok(if rowId in RowsOf(Contents(), table) then Some(RowsOf(Contents(), table)[rowId]) else None)
      ensures !Permits(id) ==> r.Err?
    {
      if !Permits(id) {
        return Err(TransactionError);
      }
      if table in rows && rowId in rows[table] {
        return Ok(Some(rows[table][rowId]));
      }
      r := Ok(None);
    }

    /** `lookup_index`: the ids of one bucket. */
    method LookupIn(id: nat, table: string, index: string, key: Key) returns (r: Result<seq<nat>>)
      ensures r == if Permits(id) then LookupIndex(Contents(), table, index, key) else Err(TransactionError)
    {
      if !Permits(id) {
        return Err(TransactionError);
      }
      if table !in indexes || index !in indexes[table] {
        return Err(UnknownIndex);
      }
      var entries := indexes[table][index].entries;
      if key in entries {
        return Ok(Sorted(entries[key]));
      }
      r := Ok([]);
    }

    /** `scan_index_prefix`: the loop over all keys collecting ids. */
    method ScanIndexPrefix(id: nat, table: string, index: string, prefix: Key) returns (r: Result<seq<nat>>)
      ensures r == if Permits(id) then ScanPrefix(Contents(), table, index, prefix) else Err(TransactionError)
    {
      if !Permits(id) {
        return Err(TransactionError);
      }
      if table !in indexes || index !in indexes[table] {
        return Err(UnknownIndex);
      }
      var state := indexes[table][index];
      if |prefix| > |state.meta.columns| {
        return Err(BadIndexPrefix);
      }
      var ids: set<nat> := {};
      var left := state.entries.Keys;
      while left != {}
        invariant left <= state.entries.Keys
        invariant ids == set k, i | k in state.entries && k !in left && prefix <= k && i in state.entries[k] :: i
        decreases |left|
      {
        var k :| k in left;
        if prefix <= k {
          ids := ids + state.entries[k];
        }
        left := left - {k};
      }
      assert ids == PrefixIds(state, prefix);
      r := Ok(Sorted(ids));
    }

    /** `scan_index_range`: the loop over all keys keeping those in range. */
    method ScanIndexRange(id: nat, table: string, index: string, prefix: Key, lower: Option<Bound>,
        upper: Option<Bound>) returns (r: Result<seq<nat>>)
      ensures r == if Permits(id) then ScanRange(Contents(), table, index, prefix, lower, upper)
              else Err(TransactionError)
    {
      hide StoreMatches, Sorted, StoreOk;
      if !Permits(id) {
        return Err(TransactionError);
      }
      if table !in indexes || index !in indexes[table] {
        return Err(UnknownIndex);
      }
      var state := indexes[table][index];
      if |prefix| >= |state.meta.columns| {
        return Err(BadIndexPrefix);
      }
      var ids: set<nat> := {};
      var left := state.entries.Keys;
      while left != {}
        invariant left <= state.entries.Keys
        invariant ids == set k, i | k in state.entries && k !in left && InRange(k, prefix, lower, upper) &&
          i in state.entries[k] :: i
        decreases |left|
      {
        var k :| k in left;
        left := left - {k};
        if !(prefix <= k) {
          continue;
        }
        if |prefix| >= |k| {
          continue;
        }
        if MatchesBound(k[|prefix|], lower) && MatchesBound(k[|prefix|], upper) {
          ids := ids + state.entries[k];
        }
      }
      assert ids == RangeIds(state, prefix, lower, upper);
      r := Ok(Sorted(ids));
    }
  }

  // ----- Effects on the object's state -------------------------------------

  /** The state an operation's effect leaves when a transaction is active. */
  ghost function After(store: Store, e: Effect): Store
    requires store.active.Some?
  {
    store.(db := e.db, active := Some(store.active.value.(undoLog := store.active.value.undoLog + e.undo)))
  }

  lemma StoreUpdatedIs(db: Db, table: string, names: seq<string>, id: nat, target: nat, row: Row)
    requires table in db.rows && table in db.indexes && id in db.rows[table] && target !in db.rows[table] - {id}
    requires var cleared := RemoveRow(names, db.indexes[table], id, db.rows[table][id]);
             cleared.Some? && AddRow(names, cleared.value, target, row).Some?
    ensures var cleared := RemoveRow(names, db.indexes[table], id, db.rows[table][id]).value;
            StoreUpdated(db, table, names, id, target, row) ==
              Effect(Db(db.schemas, db.rows[table := Put(db.rows[table] - {id}, target, row)],
                        db.indexes[table := AddRow(names, cleared, target, row).value],
                            RaisedCounters(db.counters, table, target)),
                     [RestoreRow(table, id, db.rows[table][id])], None)
  {
    var cleared := RemoveRow(names, db.indexes[table], id, db.rows[table][id]).value;
    var added := AddRow(names, cleared, target, row).value;
    assert db.indexes[table := cleared][table := added] == db.indexes[table := added];
  }

  lemma RemoveFromNone(names: seq<string>, id: nat, row: Row)
    ensures RemoveRow(names, map[], id, row) == Some(map[])
  {
  }

  lemma PutTwice<K, V>(m: map<K, V>, k: K, v: V, w: V)
    ensures m[k := v][k := w] == m[k := w]
  {
  }

  lemma SameReferrers(a: Db, b: Db, table: string, column: Option<string>)
    requires table in a.schemas && a.schemas.Keys == b.schemas.Keys
    requires forall t :: t in a.schemas && t != table ==> b.schemas[t] == a.schemas[t]
    ensures Referrers(b, table, column, table) == Referrers(a, table, column, table)
  {
  }

  /** The table's own part of a column rename. */
  ghost function OwnRenamed(db: Db, table: string, updated: Schema, old_: string, new_: string): Db {
    db.(schemas := db.schemas[table := updated],
        indexes := if table in db.indexes
                   then db.indexes[table := RenameIndexColumns(db.indexes[table], old_, new_)] else db.indexes)
  }

  /** Moving the table, changing its referrers and then its own references is the whole rename. */
  lemma RenameSchemaIs(was: Store, moved: Store, changed: Store, from: string, to: string, order: seq<string>)
    requires was.active.Some? && from in was.db.schemas && to !in was.db.schemas
    requires moved == After(was, Effect(Moved(was.db, from, to), [Snapshot(was.db, from), UndoDropSchema(to)], None))
    requires changed == After(moved, ChangeReferrers(moved.db, order, TableRenamed(from, to)))
    requires to in changed.db.schemas
    ensures changed.(db :=
            changed.db.(schemas := changed.db.schemas[to := RenameRefTable(changed.db.schemas[to], from, to)])) ==
            After(was, RenameSchema(was.db, from, to, order))
  {
    var log, own := was.active.value.undoLog, [Snapshot(was.db, from), UndoDropSchema(to)];
    var rest := ChangeReferrers(moved.db, order, TableRenamed(from, to)).undo;
    assert log + own + rest == log + (own + rest);
  }

  lemma LogOneMore(store: Store, e: Effect, u: UndoOp)
    requires store.active.Some?
    ensures store.active.value.undoLog + (e.undo + [u]) == (store.active.value.undoLog + e.undo) + [u]
  {
  }

  /** The same call, iteration orders aside. */
  predicate SameCall(a: Mutation, b: Mutation) {
    match (a, b)
    case (RenameTable(x, y, _), RenameTable(u, v, _)) => x == u && y == v
    case (Insert(t, x, _), Insert(u, y, _)) => t == u && x == y
    case (RenameTableColumn(t, x, y, _), RenameTableColumn(u, v, w, _)) => t == u && x == v && y == w
    case (RemoveTableColumn(t, x, _), RemoveTableColumn(u, v, _)) => t == u && x == v
    case _ => a == b
  }

  /** Row and index mutations, as against those that change the catalog. */
  predicate OnRows(op: Mutation) { op.Insert? || op.Delete? || op.Update? || op.AddIndex? || op.RemoveIndex? }

  /** The object did what the operation says, or refused a foreign transaction id. */
  ghost predicate Did(env: Env, s: Session, id: nat, op: Mutation, after: Store, error: Option<Error>) {
    && (!IsActive(s.store, id) ==> after == s.store && error == Some(TransactionError))
    && (IsActive(s.store, id) ==>
      var e := Perform(env, s.store.db, op); after == After(s.store, e) && error == e.error)
  }

  lemma SessionHasStore(s: Session)
    requires SessionOk(s)
    ensures StoreOk(s.store.db) && KeysAgree(s.store.db)
  {
  }

  lemma SameReady(env: Env, db: Db, a: Mutation, b: Mutation)
    requires SameCall(a, b)
    ensures Ready(env, db, a) == Ready(env, db, b) && Undoable(db, a) == Undoable(db, b) && OnRows(a) == OnRows(b)
  {
  }

  lemma StepKeepsSession(env: Env, s: Session, id: nat, op: Mutation, after: Store, error: Option<Error>)
    requires SessionOk(s) && Did(env, s, id, op, after, error)
    ensures !IsActive(s.store, id) || Safe(env, s.store.db, op) ==> SessionOk(s.(store := after))
    ensures (after, error) == Step(env, s.store, On(id, Do(op)))
  {
    hide Perform, StoreOk, Safe, LogOk;
    if IsActive(s.store, id) {
      DoIs(env, s, id, op);
      if Safe(env, s.store.db, op) {
        DoKeepsSession(env, s, id, op);
      }
    }
  }

  /** The loop of `add_column` over existing rows, stopping at the first one refused. */
  method RewriteEach(f: Row -> Result<Row>, stored: Rows, ids: seq<nat>) returns (rewritten: Rows, error: Option<Error>)
    requires forall id :: id in ids <==> id in stored
    ensures error == FirstRefusal(f, stored, ids)
    ensures error.None? ==> (forall id :: id in stored ==> f(stored[id]).Ok?) && rewritten == RewriteAll(f, stored)
  {
    rewritten := map[];
    var i := 0;
    assert ids[0..] == ids;
    while i < |ids|
      invariant 0 <= i <= |ids|
      invariant forall j :: 0 <= j < i ==> ids[j] in rewritten
      invariant forall id :: id in rewritten ==> id in stored && f(stored[id]) == Ok(rewritten[id])
      invariant FirstRefusal(f, stored, ids) == FirstRefusal(f, stored, ids[i..])
    {
      assert ids[i] in ids;
      assert ids[i..][0] == ids[i] && ids[i..][1..] == ids[i + 1..];
      var extended := f(stored[ids[i]]);
      if extended.Err? {
        return rewritten, Some(extended.error);
      }
      rewritten := rewritten[ids[i] := extended.value];
      i := i + 1;
    }
    forall id | id in stored ensures id in rewritten {
      assert id in ids;
    }
    error := None;
  }

  /** The fill loop of `create_index`. */
  method BuildFrom(names: seq<string>, meta: IndexMeta, stored: Rows) returns (r: Result<Entries>)
    ensures r == BuildEntries(names, meta, stored, Sorted(stored.Keys), map[])
  {
    var ids := Sorted(stored.Keys);
    var entries: Entries := map[];
    var i := 0;
    assert ids[0..] == ids;
    while i < |ids|
      invariant 0 <= i <= |ids|
      invariant BuildEntries(names, meta, stored, ids, map[]) == BuildEntries(names, meta, stored, ids[i..], entries)
    {
      assert ids[i] in ids;
      assert ids[i..][0] == ids[i] && ids[i..][1..] == ids[i + 1..];
      var key := ProjectKey(names, meta.columns, stored[ids[i]]);
      if key.None? {
        return Err(UnknownColumn);
      }
      if EnforcesUnique(meta, key.value) && key.value in entries && entries[key.value] != {} {
        return Err(UniqueFailed);
      }
      entries := AddEntry(entries, key.value, ids[i]);
      i := i + 1;
    }
    r := Ok(entries);
  }

  // ----- Rebuild loop facts ------------------------------------------------

  ghost function Listed(s: set<string>): (q: seq<string>)
    ensures forall x :: x in q <==> x in s
  {
    if s == {} then [] else var x :| x in s; [x] + Listed(s - {x})
  }

  lemma {:induction false} RebuildOneMore(names: seq<string>, rows: Rows, indexes: Indexes, order: seq<string>,
      n: string)
    requires RebuildIndexes(names, rows, indexes, order).1 && n in indexes &&
             n in RebuildIndexes(names, rows, indexes, order).0
    ensures var done := RebuildIndexes(names, rows, indexes, order).0;
            var (entries, ok) := FillEntries(names, done[n].meta.columns, rows, Sorted(rows.Keys), map[]);
            RebuildIndexes(names, rows, indexes, order + [n]) == (done[n := done[n].(entries := entries)], ok)
    decreases |order|
  {
    if order == [] {
      assert order + [n] == [n];
      var (entries, ok) := FillEntries(names, indexes[n].meta.columns, rows, Sorted(rows.Keys), map[]);
      if ok { assert [n][1..] == []; }
    } else {
      assert (order + [n])[1..] == order[1..] + [n];
      if order[0] in indexes {
        var index := indexes[order[0]];
        var entries := FillEntries(names, index.meta.columns, rows, Sorted(rows.Keys), map[]).0;
        RebuildOneMore(names, rows, indexes[order[0] := index.(entries := entries)], order[1..], n);
      } else {
        RebuildOneMore(names, rows, indexes, order[1..], n);
      }
    }
  }

  lemma {:induction false} RebuildStops(names: seq<string>, rows: Rows, indexes: Indexes, order: seq<string>,
      rest: seq<string>)
    requires !RebuildIndexes(names, rows, indexes, order).1
    ensures RebuildIndexes(names, rows, indexes, order + rest) == RebuildIndexes(names, rows, indexes, order)
    decreases |order|
  {
    if order != [] {
      assert (order + rest)[1..] == order[1..] + rest;
      if order[0] in indexes {
        var index := indexes[order[0]];
        var (entries, ok) := FillEntries(names, index.meta.columns, rows, Sorted(rows.Keys), map[]);
        if ok {
          RebuildStops(names, rows, indexes[order[0] := index.(entries := entries)], order[1..], rest);
        }
      } else {
        RebuildStops(names, rows, indexes, order[1..], rest);
      }
    }
  }

  lemma {:induction false} OneMoreReferrer(db: Db, order: seq<string>, t: string, change: RefChange)
    requires t in ChangeReferrers(db, order, change).db.schemas
    ensures var e := ChangeReferrers(db, order, change);
            ChangeReferrers(db, order + [t], change) ==
              Effect(e.db.(schemas := e.db.schemas[t := ChangeRefs(e.db.schemas[t], change)]),
                  e.undo + [Snapshot(e.db, t)], None)
    decreases |order|
  {
    if order == [] {
      assert order + [t] == [t];
      assert [t][1..] == [];
    } else {
      assert (order + [t])[1..] == order[1..] + [t];
      var u := order[0];
      if u in db.schemas {
        OneMoreReferrer(db.(schemas := db.schemas[u := ChangeRefs(db.schemas[u], change)]), order[1..], t, change);
      } else {
        OneMoreReferrer(db, order[1..], t, change);
      }
    }
  }
}
