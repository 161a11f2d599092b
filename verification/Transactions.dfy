/** Transactions over the store: one active transaction with an undo log and a stack of savepoints,
    and the proof that for every run rollback and rollback-to restore the states they should. */
module Transactions {
  import opened Common
  import opened Values
  import opened Schemas
  import opened StoreSpec
  import opened StoreInvariant
  import opened StoreRows
  import opened StoreCatalog
  import opened StoreColumns
  import opened StoreRenames

  datatype Savepoint = Savepoint(name: string, undoLen: nat)
  datatype ActiveTransaction = ActiveTransaction(id: nat, undoLog: seq<UndoOp>, savepoints: seq<Savepoint>)
  datatype Store = Store(db: Db, nextTxnId: nat, active: Option<ActiveTransaction>)

  datatype Mutation =
    | CreateTable(schema: Schema)
    | DropTable(table: string)
    | ReplaceTable(schema: Schema)
    | RenameTable(from: string, to: string, order: seq<string>)
    | AddTableColumn(table: string, column: ColumnDef)
    | RenameTableColumn(table: string, old_: string, new_: string, order: seq<string>)
    | RemoveTableColumn(table: string, name: string, order: seq<string>)
    | Insert(table: string, row: Row, order: seq<string>)
    | Delete(table: string, id: nat)
    | Update(table: string, id: nat, row: Row)
    | AddIndex(table: string, meta: IndexMeta)
    | RemoveIndex(table: string, index: string)

  datatype Action =
    | Commit
    | Rollback
    | Mark(name: string)
    | RollbackTo(name: string)
    | Release(name: string)
    | Do(op: Mutation)

  /** A call either begins a transaction or acts under a transaction id. */
  datatype Call = Begin | On(id: nat, action: Action)

  function Perform(env: Env, db: Db, op: Mutation): Effect {
    match op
    case CreateTable(schema) => CreateSchema(db, schema)
    case DropTable(t) => DropSchema(db, t)
    case ReplaceTable(schema) => ReplaceSchema(db, schema)
    case RenameTable(a, b, order) => RenameSchema(db, a, b, order)
    case AddTableColumn(t, c) => AddColumn(env, db, t, c)
    case RenameTableColumn(t, a, b, order) => RenameColumn(db, t, a, b, order)
    case RemoveTableColumn(t, c, order) => DropTableColumn(db, t, c, order)
    case Insert(t, row, order) => InsertRow(env, db, t, row, order).0
    case Delete(t, id) => DeleteRow(db, t, id)
    case Update(t, id, row) => UpdateRow(env, db, t, id, row)
    case AddIndex(t, meta) => CreateIndex(db, t, meta)
    case RemoveIndex(t, i) => DropIndex(db, t, i)
  }

  /** What callers must see to, operation by operation, so that the store stays right: conditions on the
      schema, the column and the row that can be checked before the call. Index definitions, renames,
      deletes and updates need none. */
  ghost predicate Ready(env: Env, db: Db, op: Mutation) {
    match op
    case CreateTable(schema) => DistinctNames(schema)
    case ReplaceTable(schema) => Suits(db, schema)
    case AddTableColumn(t, c) => AddFits(env, db, t, c)
    case RemoveTableColumn(t, c, _) =>
      t in db.schemas && DropColumn(db.schemas[t], c).Ok? ==> RowsOf(db, t) == map[] || Unindexed(IndexesOf(db, t), c)
    case Insert(t, row, _) => InsertClear(env, db, t, row)
    case _ => true
  }

  /** The one operation whose undo record does not always suffice: an update may not move its row. */
  predicate Undoable(db: Db, op: Mutation) { op.Update? ==> KeepsId(db, op.table, op.id, op.row) }

  /** The iteration orders carried by an operation are orders of the right sets. */
  ghost predicate OrderOk(db: Db, op: Mutation) {
    match op
    case RenameTable(a, b, order) =>
      b !in order &&
          (a in db.schemas && b !in db.schemas ==> forall t :: t in order <==>
              t in Referrers(Moved(db, a, b), a, None, b))
    case RenameTableColumn(t, a, b, order) =>
      t !in order &&
          (RenameColumn(db, t, a, b, order).error.None? ==> forall u :: u in order <==>
              u in Referrers(db, t, Some(a), t))
    case RemoveTableColumn(t, c, order) =>
      t in db.schemas && DropColumn(db.schemas[t], c).Ok? ==>
        forall n :: n in IndexesOf(db, t) ==> n in order
    case Insert(t, _, order) => Lists(order, IndexesOf(db, t).Keys)
    case _ => true
  }

  ghost predicate Safe(env: Env, db: Db, op: Mutation) { Ready(env, db, op) && Undoable(db, op) && OrderOk(db, op) }

  // ----- The transaction calls ---------------------------------------------

  /** `rposition`: the last savepoint with the name. */
  function LastMark(savepoints: seq<Savepoint>, name: string): (r: Option<nat>)
    ensures r.Some? ==> r.value < |savepoints| && SameName(savepoints[r.value].name, name)
    ensures r.Some? ==> forall j :: r.value < j < |savepoints| ==> !SameName(savepoints[j].name, name)
    ensures r.None? ==> forall j :: 0 <= j < |savepoints| ==> !SameName(savepoints[j].name, name)
  {
    if savepoints == [] then None
    else if SameName(savepoints[|savepoints| - 1].name, name) then Some(|savepoints| - 1)
    else LastMark(savepoints[..|savepoints| - 1], name)
  }

  predicate IsActive(store: Store, id: nat) { store.active.Some? && store.active.value.id == id }

  /** An action under the active transaction: the store it leaves and its error. */
  function Act(env: Env, store: Store, txn: ActiveTransaction, action: Action): (Store, Option<Error>) {
    match action
    case Commit => (store.(active := None), None)
    case Rollback =>
      (match Unwind(store.db, txn.undoLog)
       case None => (store.(active := None), Some(TransactionError))
       case Some(db) => (store.(db := db, active := None), None))
    case Mark(name) =>
      (store.(active := Some(txn.(savepoints := txn.savepoints + [Savepoint(name, |txn.undoLog|)]))), None)
    case RollbackTo(name) =>
      (match LastMark(txn.savepoints, name)
       case None => (store, Some(NoSuchSavepoint))
       case Some(i) =>
         var len := txn.savepoints[i].undoLen;
         // A longer mark than the log would make `split_off` panic; no reachable store has one.
         if len > |txn.undoLog| then (store, Some(TransactionError))
         else
           var kept := txn.(undoLog := txn.undoLog[..len], savepoints := txn.savepoints[..i + 1]);
           match Unwind(store.db, txn.undoLog[len..])
           case None => (store.(active := Some(kept)), Some(TransactionError))
           case Some(db) => (store.(db := db, active := Some(kept)), None))
    case Release(name) =>
      (match LastMark(txn.savepoints, name)
       case None => (store, Some(NoSuchSavepoint))
       case Some(i) => (store.(active := Some(txn.(savepoints := txn.savepoints[..i]))), None))
    case Do(op) =>
      var e := Perform(env, store.db, op);
      (store.(db := e.db, active := Some(txn.(undoLog := txn.undoLog + e.undo))), e.error)
  }

  /** One call: the store it leaves and its error. */
  function Step(env: Env, store: Store, call: Call): (Store, Option<Error>) {
    match call
    case Begin =>
      if store.active.Some? then (store, Some(TransactionError))
      else (Store(store.db, store.nextTxnId + 1, Some(ActiveTransaction(store.nextTxnId, [], []))), None)
    case On(id, action) =>
      if !IsActive(store, id) then (store, Some(TransactionError)) else Act(env, store, store.active.value, action)
  }

  // ----- Undo does not look at counters ------------------------------------

  /** Replaying one record on states equal up to counters gives states equal up to counters. */
  lemma ApplyUndoCongruent(a: Db, b: Db, u: UndoOp)
    requires SameUpToCounters(a, b) && ApplyUndo(b, u).Some?
    ensures ApplyUndo(a, u).Some? && SameUpToCounters(ApplyUndo(a, u).value, ApplyUndo(b, u).value)
  {
    hide TakeBackInserted, TakeBackDeleted, TakeBackUpdated;
    match u
    case UndoInsert(t, id) => TakeBackInsertedCongruent(a, b, t, id);
    case ReinsertRow(t, id, row) => TakeBackDeletedCongruent(a, b, t, id, row);
    case RestoreRow(t, id, row) => TakeBackUpdatedCongruent(a, b, t, id, row);
    case _ =>
  }

  lemma TakeBackInsertedCongruent(a: Db, b: Db, t: string, id: nat)
    requires SameUpToCounters(a, b)
    ensures var x, y := TakeBackInserted(a, t, id), TakeBackInserted(b, t, id);
            x.Some? == y.Some? && (x.Some? ==> SameUpToCounters(x.value, y.value))
  {
    hide RemoveRow;
  }

  lemma TakeBackDeletedCongruent(a: Db, b: Db, t: string, id: nat, row: Row)
    requires SameUpToCounters(a, b)
    ensures var x, y := TakeBackDeleted(a, t, id, row), TakeBackDeleted(b, t, id, row);
            x.Some? == y.Some? && (x.Some? ==> SameUpToCounters(x.value, y.value))
  {
    hide AddRow;
  }

  lemma TakeBackUpdatedCongruent(a: Db, b: Db, t: string, id: nat, row: Row)
    requires SameUpToCounters(a, b)
    ensures var x, y := TakeBackUpdated(a, t, id, row), TakeBackUpdated(b, t, id, row);
            x.Some? == y.Some? && (x.Some? ==> SameUpToCounters(x.value, y.value))
  {
    hide AddRow, RemoveRow;
  }

  lemma {:induction false} UnwindCongruent(a: Db, b: Db, log: seq<UndoOp>)
    requires SameUpToCounters(a, b) && Unwind(b, log).Some?
    ensures Unwind(a, log).Some? && SameUpToCounters(Unwind(a, log).value, Unwind(b, log).value)
    decreases |log|
  {
    if log != [] {
      var u := log[|log| - 1];
      ApplyUndoCongruent(a, b, u);
      UnwindCongruent(ApplyUndo(a, u).value, ApplyUndo(b, u).value, log[..|log| - 1]);
    }
  }

  /** Replaying `log` on `db` succeeds and leads to `target`, counters aside. */
  ghost predicate LeadsTo(db: Db, log: seq<UndoOp>, target: Db) {
    Unwind(db, log).Some? && SameUpToCounters(Unwind(db, log).value, target)
  }

  /** If the new records undo an operation, the longer log leads where the shorter one did. */
  lemma LongerLogLeads(before: Db, e: Effect, log: seq<UndoOp>, target: Db)
    requires Reverts(before, e) && LeadsTo(before, log, target)
    ensures LeadsTo(e.db, log + e.undo, target)
  {
    UnwindAppend(e.db, log, e.undo);
    UnwindCongruent(Unwind(e.db, e.undo).value, before, log);
  }

  /** After replaying the end of a log, its front still leads where the whole did. */
  lemma FrontLeads(db: Db, log: seq<UndoOp>, cut: nat, from: nat, target: Db)
    requires from <= cut <= |log| && LeadsTo(db, log[from..], target) && Unwind(db, log[cut..]).Some?
    ensures LeadsTo(Unwind(db, log[cut..]).value, log[..cut][from..], target)
  {
    assert log[from..] == log[..cut][from..] + log[cut..];
    UnwindAppend(db, log[..cut][from..], log[cut..]);
  }

  // ----- Every safe operation ----------------------------------------------

  lemma SafeDrop(env: Env, db: Db, t: string, c: string, order: seq<string>)
    requires StoreOk(db) && OrderOk(db, RemoveTableColumn(t, c, order))
    ensures Ready(env, db, RemoveTableColumn(t, c, order)) ==> StoreOk(DropTableColumn(db, t, c, order).db)
    ensures Reverts(db, DropTableColumn(db, t, c, order))
  {
    hide StoreOk, Reverts;
    DropColumnReverts(db, t, c, order);
    if t in db.schemas && DropColumn(db.schemas[t], c).Ok? {
      if Ready(env, db, RemoveTableColumn(t, c, order)) {
        DropReady(db, t);
        DropColumnPreserves(db, t, c, order);
      }
    }
  }

  lemma DropReady(db: Db, t: string)
    requires StoreOk(db) && t in db.schemas
    ensures t in db.rows && t in db.indexes
  {
  }

  lemma SafeRowMutation(env: Env, db: Db, op: Mutation)
    requires StoreOk(db) && OrderOk(db, op) && (op.Insert? || op.Delete? || op.Update?)
    ensures Ready(env, db, op) ==> StoreOk(Perform(env, db, op).db)
    ensures Undoable(db, op) && (op.Insert? ==> Ready(env, db, op)) ==> Reverts(db, Perform(env, db, op))
  {
    hide StoreOk, Reverts, InsertClear, KeepsId, InsertRow, UpdateRow, DeleteRow;
    match op
    case Insert(t, row, order) => InsertPreserves(env, db, t, row, order);
    case Delete(t, id) => DeletePreserves(db, t, id);
    case Update(t, id, row) =>
      UpdateKeepsStoreOk(env, db, t, id, row);
      if KeepsId(db, t, id, row) { UpdateReverts(env, db, t, id, row); }
  }

  /** On a right store every operation whose condition is met keeps the store right; and every operation
      but an update that moves its row, and an insert that is not clear, logs records that take it back
      exactly, whatever its arguments. */
  lemma SafeMutation(env: Env, db: Db, op: Mutation)
    requires StoreOk(db) && OrderOk(db, op)
    ensures Ready(env, db, op) ==> StoreOk(Perform(env, db, op).db)
    ensures Undoable(db, op) && (op.Insert? ==> Ready(env, db, op)) ==> Reverts(db, Perform(env, db, op))
  {
    hide Reverts, StoreOk, InsertRow, DeleteRow, UpdateRow, AddColumn, RenameColumn, DropTableColumn, RenameSchema;
    hide CreateSchema, CreateIndex, DropIndex, DropSchema, ReplaceSchema, UniqueKeys, Suits;
    match op
    case CreateTable(schema) => CreateSchemaPreserves(db, schema);
    case DropTable(t) => DropSchemaPreserves(db, t);
    case ReplaceTable(schema) => ReplaceSchemaPreserves(db, schema);
    case RenameTable(a, b, order) => RenameSchemaPreserves(db, a, b, order);
    case AddTableColumn(t, c) => AddColumnPreserves(env, db, t, c);
    case RenameTableColumn(t, a, b, order) => RenameColumnPreserves(db, t, a, b, order);
    case RemoveTableColumn(t, c, order) => SafeDrop(env, db, t, c, order);
    case Insert(_, _, _) => SafeRowMutation(env, db, op);
    case Delete(_, _) => SafeRowMutation(env, db, op);
    case Update(_, _, _) => SafeRowMutation(env, db, op);
    case AddIndex(t, meta) => CreateIndexPreserves(db, t, meta);
    case RemoveIndex(t, i) => DropIndexPreserves(db, t, i);
  }

  // ----- Whole runs --------------------------------------------------------

  /** A store with its history: the state at `begin` and the state at each live savepoint. The
      history is only recorded, never used to compute. */
  datatype Session = Session(store: Store, base: Db, marks: seq<Db>)

  function Record(env: Env, s: Session, call: Call): Session {
    var (store', error) := Step(env, s.store, call);
    if error.Some? then s.(store := store')
    else match call
      case Begin => Session(store', s.store.db, [])
      case On(_, Mark(_)) => Session(store', s.base, s.marks + [s.store.db])
      case On(_, RollbackTo(name)) =>
        var n := if store'.active.Some? then |store'.active.value.savepoints| else 0;
        Session(store', s.base, if n <= |s.marks| then s.marks[..n] else s.marks)
      case On(_, Release(name)) =>
        var n := if store'.active.Some? then |store'.active.value.savepoints| else 0;
        Session(store', s.base, if n <= |s.marks| then s.marks[..n] else s.marks)
      case _ => s.(store := store')
  }

  /** The undo log leads back to the state at `begin`, and from each savepoint's mark on it leads back
      to the state at that savepoint. */
  ghost predicate LogOk(db: Db, txn: ActiveTransaction, base: Db, marks: seq<Db>) {
    && |marks| == |txn.savepoints|
    && StoreOk(base) && LeadsTo(db, txn.undoLog, base)
    && (forall i :: 0 <= i < |marks| ==> StoreOk(marks[i]))
    && (forall i :: 0 <= i < |marks| ==> txn.savepoints[i].undoLen <= |txn.undoLog|)
    && (forall i, j :: 0 <= i < j < |marks| ==> txn.savepoints[i].undoLen <= txn.savepoints[j].undoLen)
    && (forall i :: 0 <= i < |marks| ==> LeadsTo(db, txn.undoLog[txn.savepoints[i].undoLen..], marks[i]))
  }

  ghost predicate SessionOk(s: Session) {
    StoreOk(s.store.db) && (s.store.active.Some? ==> LogOk(s.store.db, s.store.active.value, s.base, s.marks))
  }

  ghost predicate SafeCall(env: Env, s: Session, call: Call) {
    call.On? && call.action.Do? && IsActive(s.store, call.id) ==> Safe(env, s.store.db, call.action.op)
  }

  lemma EffectKeepsLog(db: Db, e: Effect, txn: ActiveTransaction, base: Db, marks: seq<Db>)
    requires LogOk(db, txn, base, marks) && Reverts(db, e)
    ensures LogOk(e.db, txn.(undoLog := txn.undoLog + e.undo), base, marks)
  {
    LongerLogLeads(db, e, txn.undoLog, base);
    forall i | 0 <= i < |marks| ensures LeadsTo(e.db, (txn.undoLog + e.undo)[txn.savepoints[i].undoLen..], marks[i]) {
      var len := txn.savepoints[i].undoLen;
      LongerLogLeads(db, e, txn.undoLog[len..], marks[i]);
      assert (txn.undoLog + e.undo)[len..] == txn.undoLog[len..] + e.undo;
    }
  }

  /** The session after an effect. */
  function AfterEffect(s: Session, e: Effect): Session
    requires s.store.active.Some?
  {
    var txn := s.store.active.value;
    s.(store := s.store.(db := e.db, active := Some(txn.(undoLog := txn.undoLog + e.undo))))
  }

  lemma DoIs(env: Env, s: Session, id: nat, op: Mutation)
    requires IsActive(s.store, id)
    ensures Record(env, s, On(id, Do(op))) == AfterEffect(s, Perform(env, s.store.db, op))
  {
  }

  lemma DoKeepsSession(env: Env, s: Session, id: nat, op: Mutation)
    requires SessionOk(s) && IsActive(s.store, id) && Safe(env, s.store.db, op)
    ensures SessionOk(Record(env, s, On(id, Do(op))))
  {
    SafeMutation(env, s.store.db, op);
    DoIs(env, s, id, op);
    EffectKeepsLog(s.store.db, Perform(env, s.store.db, op), s.store.active.value, s.base, s.marks);
  }

  lemma MarkKeepsLog(db: Db, txn: ActiveTransaction, base: Db, marks: seq<Db>, name: string)
    requires StoreOk(db) && LogOk(db, txn, base, marks)
    ensures LogOk(db, txn.(savepoints := txn.savepoints + [Savepoint(name, |txn.undoLog|)]), base, marks + [db])
  {
    UnwindNothing(db);
    assert txn.undoLog[|txn.undoLog|..] == [];
  }

  lemma CutKeepsLog(db: Db, txn: ActiveTransaction, base: Db, marks: seq<Db>, k: nat)
    requires LogOk(db, txn, base, marks) && k <= |marks|
    ensures LogOk(db, txn.(savepoints := txn.savepoints[..k]), base, marks[..k])
  {
  }

  /** Rolling back to a savepoint leads to its state and leaves a log that still leads everywhere the
      longer one did. */
  lemma RollbackToKeepsLog(db: Db, txn: ActiveTransaction, base: Db, marks: seq<Db>, k: nat)
    requires LogOk(db, txn, base, marks) && k < |marks|
    ensures var len := txn.savepoints[k].undoLen;
            var r := Unwind(db, txn.undoLog[len..]);
            r.Some? && SameUpToCounters(r.value, marks[k]) && StoreOk(r.value) &&
            LogOk(r.value, txn.(undoLog := txn.undoLog[..len], savepoints := txn.savepoints[..k + 1]), base,
                marks[..k + 1])
  {
    var len := txn.savepoints[k].undoLen;
    var db' := Unwind(db, txn.undoLog[len..]).value;
    AdvancedCountersOk(db', marks[k]);
    assert txn.undoLog[0..] == txn.undoLog && txn.undoLog[..len][0..] == txn.undoLog[..len];
    FrontLeads(db, txn.undoLog, len, 0, base);
    forall i | 0 <= i <= k ensures LeadsTo(db', txn.undoLog[..len][txn.savepoints[i].undoLen..], marks[i]) {
      FrontLeads(db, txn.undoLog, len, txn.savepoints[i].undoLen, marks[i]);
    }
  }

  lemma RollbackToKeepsSession(env: Env, s: Session, id: nat, name: string)
    requires SessionOk(s) && IsActive(s.store, id)
    ensures SessionOk(Record(env, s, On(id, RollbackTo(name))))
  {
    hide Unwind, StoreOk, SameUpToCounters;
    var txn := s.store.active.value;
    var k := LastMark(txn.savepoints, name);
    if k.Some? { RollbackToKeepsLog(s.store.db, txn, s.base, s.marks, k.value); }
  }

  lemma ReleaseKeepsSession(env: Env, s: Session, id: nat, name: string)
    requires SessionOk(s) && IsActive(s.store, id)
    ensures SessionOk(Record(env, s, On(id, Release(name))))
  {
    var txn := s.store.active.value;
    var k := LastMark(txn.savepoints, name);
    if k.Some? { CutKeepsLog(s.store.db, txn, s.base, s.marks, k.value); }
  }

  lemma MarkKeepsSession(env: Env, s: Session, id: nat, name: string)
    requires SessionOk(s) && IsActive(s.store, id)
    ensures SessionOk(Record(env, s, On(id, Mark(name))))
  {
    MarkKeepsLog(s.store.db, s.store.active.value, s.base, s.marks, name);
  }

  lemma RollbackKeepsSession(env: Env, s: Session, id: nat)
    requires SessionOk(s) && IsActive(s.store, id)
    ensures SessionOk(Record(env, s, On(id, Rollback)))
  {
    AdvancedCountersOk(Unwind(s.store.db, s.store.active.value.undoLog).value, s.base);
  }

  lemma BeginKeepsSession(env: Env, s: Session)
    requires SessionOk(s)
    ensures SessionOk(Record(env, s, Begin))
  {
    UnwindNothing(s.store.db);
  }

  /** Every safe call keeps the session right. */
  lemma SafeStep(env: Env, s: Session, call: Call)
    requires SessionOk(s) && SafeCall(env, s, call)
    ensures SessionOk(Record(env, s, call))
  {
    match call
    case Begin => BeginKeepsSession(env, s);
    case On(id, action) =>
      if IsActive(s.store, id) {
        match action
        case Commit =>
        case Rollback => RollbackKeepsSession(env, s, id);
        case Mark(name) => MarkKeepsSession(env, s, id, name);
        case RollbackTo(name) => RollbackToKeepsSession(env, s, id, name);
        case Release(name) => ReleaseKeepsSession(env, s, id, name);
        case Do(op) => DoKeepsSession(env, s, id, op);
      }
  }

  function Run(env: Env, s: Session, calls: seq<Call>): Session
    decreases |calls|
  {
    if calls == [] then s else Run(env, Record(env, s, calls[0]), calls[1..])
  }

  ghost predicate SafeRun(env: Env, s: Session, calls: seq<Call>)
    decreases |calls|
  {
    calls != [] ==> SafeCall(env, s, calls[0]) && SafeRun(env, Record(env, s, calls[0]), calls[1..])
  }

  /** Every safe run keeps the session right: after any sequence of calls the store's indexes equal
      its tables, and the undo log leads back to the state at begin and at every live savepoint. */
  lemma {:induction false} SafeRunOk(env: Env, s: Session, calls: seq<Call>)
    requires SessionOk(s) && SafeRun(env, s, calls)
    ensures SessionOk(Run(env, s, calls))
    decreases |calls|
  {
    if calls != [] {
      SafeStep(env, s, calls[0]);
      SafeRunOk(env, Record(env, s, calls[0]), calls[1..]);
    }
  }

  function EmptyStore(): Store { Store(Db(map[], map[], map[], map[]), 1, None) }

  /** The same from the empty store: every store a safe run can reach is right. */
  lemma ReachableOk(env: Env, calls: seq<Call>)
    requires SafeRun(env, Session(EmptyStore(), EmptyStore().db, []), calls)
    ensures StoreOk(Run(env, Session(EmptyStore(), EmptyStore().db, []), calls).store.db)
  {
    EmptyStoreOk();
    SafeRunOk(env, Session(EmptyStore(), EmptyStore().db, []), calls);
  }

  // ----- Runs with updates that move rows -----------------------------------

  /** Whether the active transaction has moved a row, after which its log no longer leads back. */
  ghost predicate MovedAfter(s: Session, call: Call, moved: bool) {
    if call.On? && IsActive(s.store, call.id) then
      match call.action
      case Commit => false
      case Rollback => false
      case Do(op) => moved || !Undoable(s.store.db, op)
      case _ => moved
    else moved
  }

  /** The call meets its operation's condition and replays no log of a transaction that has moved a row. */
  ghost predicate SteadyCall(env: Env, s: Session, call: Call, moved: bool) {
    call.On? && IsActive(s.store, call.id) ==>
      match call.action
      case Do(op) => Ready(env, s.store.db, op) && OrderOk(s.store.db, op)
      case Rollback => !moved
      case RollbackTo(_) => !moved
      case _ => true
  }

  ghost predicate SteadyRun(env: Env, s: Session, calls: seq<Call>, moved: bool)
    decreases |calls|
  {
    calls != [] ==>
      SteadyCall(env, s, calls[0], moved) &&
          SteadyRun(env, Record(env, s, calls[0]), calls[1..], MovedAfter(s, calls[0], moved))
  }

  /** The store is right; its log leads back too unless the transaction has moved a row. */
  ghost predicate SteadyOk(s: Session, moved: bool) {
    StoreOk(s.store.db) && if moved then s.store.active.Some? else SessionOk(s)
  }

  lemma SteadyStep(env: Env, s: Session, call: Call, moved: bool)
    requires SteadyOk(s, moved) && SteadyCall(env, s, call, moved)
    ensures SteadyOk(Record(env, s, call), MovedAfter(s, call, moved))
  {
    if !moved && SafeCall(env, s, call) {
      SafeStep(env, s, call);
    } else if call.On? && IsActive(s.store, call.id) && call.action.Do? {
      SafeMutation(env, s.store.db, call.action.op);
      DoIs(env, s, call.id, call.action.op);
    }
  }

  /** Every index still equals its table after any run whose operations meet their conditions, also when
      updates move rows, as long as what they did is not rolled back. */
  lemma {:induction false} SteadyRunOk(env: Env, s: Session, calls: seq<Call>, moved: bool)
    requires SteadyOk(s, moved) && SteadyRun(env, s, calls, moved)
    ensures StoreOk(Run(env, s, calls).store.db)
    decreases |calls|
  {
    if calls != [] {
      SteadyStep(env, s, calls[0], moved);
      SteadyRunOk(env, Record(env, s, calls[0]), calls[1..], MovedAfter(s, calls[0], moved));
    }
  }

  // ----- What rolling back restores -----------------------------------------

  /** At any point of a safe run rollback succeeds and restores the state at begin. */
  lemma RollbackRestores(env: Env, s: Session, id: nat)
    requires SessionOk(s) && IsActive(s.store, id)
    ensures var (after, error) := Step(env, s.store, On(id, Rollback));
            error.None? && after.active.None? && SameUpToCounters(after.db, s.base) && StoreOk(after.db)
  {
    AdvancedCountersOk(Unwind(s.store.db, s.store.active.value.undoLog).value, s.base);
  }

  /** At any point of a safe run rolling back to a name restores the state at the latest live
      savepoint of that name, keeps that savepoint and drops the later ones; without such a savepoint
      it fails and changes nothing. */
  lemma RollbackToRestores(env: Env, s: Session, id: nat, name: string)
    requires SessionOk(s) && IsActive(s.store, id)
    ensures var txn := s.store.active.value;
            var (after, error) := Step(env, s.store, On(id, RollbackTo(name)));
            match LastMark(txn.savepoints, name)
            case None => error == Some(NoSuchSavepoint) && after == s.store
            case Some(k) =>
              error.None? && IsActive(after, id) && after.active.value.savepoints == txn.savepoints[..k + 1] &&
              SameUpToCounters(after.db, s.marks[k]) && StoreOk(after.db)
  {
    var txn := s.store.active.value;
    var k := LastMark(txn.savepoints, name);
    if k.Some? {
      RollbackToKeepsLog(s.store.db, txn, s.base, s.marks, k.value);
    }
  }

  /** A call inside a transaction: neither its begin nor its end. */
  predicate Inside(call: Call) { call.On? && !call.action.Commit? && !call.action.Rollback? }

  lemma InsideStep(env: Env, s: Session, call: Call)
    requires s.store.active.Some? && Inside(call)
    ensures var e := Record(env, s, call);
            e.base == s.base && e.store.active.Some? && e.store.active.value.id == s.store.active.value.id
  {
  }

  lemma {:induction false} InsideKeepsBase(env: Env, s: Session, calls: seq<Call>)
    requires SessionOk(s) && SafeRun(env, s, calls) && s.store.active.Some?
    requires forall i :: 0 <= i < |calls| ==> Inside(calls[i])
    ensures var e := Run(env, s, calls);
            e.base == s.base && e.store.active.Some? && e.store.active.value.id == s.store.active.value.id
    decreases |calls|
  {
    if calls != [] {
      SafeStep(env, s, calls[0]);
      InsideStep(env, s, calls[0]);
      InsideKeepsBase(env, Record(env, s, calls[0]), calls[1..]);
    }
  }

  /** The whole story in one statement: begin, any safe calls, rollback. The rollback succeeds, and
      schemas, rows and indexes are exactly what they were before the transaction began. */
  lemma TransactionUndone(env: Env, store: Store, calls: seq<Call>)
    requires StoreOk(store.db) && store.active.None?
    requires forall i :: 0 <= i < |calls| ==> Inside(calls[i])
    requires SafeRun(env, Record(env, Session(store, store.db, []), Begin), calls)
    ensures var begun := Record(env, Session(store, store.db, []), Begin);
            var (after, error) := Step(env, Run(env, begun, calls).store, On(store.nextTxnId, Rollback));
            error.None? && after.active.None? && SameUpToCounters(after.db, store.db)
  {
    var s := Session(store, store.db, []);
    SafeStep(env, s, Begin);
    var begun := Record(env, s, Begin);
    SafeRunOk(env, begun, calls);
    InsideKeepsBase(env, begun, calls);
    RollbackRestores(env, Run(env, begun, calls), store.nextTxnId);
  }

  /** A call that leaves the savepoint at index k in place. */
  predicate SparesMark(store: Store, call: Call, k: nat) {
    Inside(call) &&
    (IsActive(store, call.id) ==>
      var savepoints := store.active.value.savepoints;
      match call.action
      case RollbackTo(name) => var i := LastMark(savepoints, name); i.Some? ==> i.value >= k
      case Release(name) => var i := LastMark(savepoints, name); i.Some? ==> i.value > k
      case _ => true)
  }

  ghost predicate SparesMarkRun(env: Env, s: Session, calls: seq<Call>, k: nat)
    decreases |calls|
  {
    calls != [] ==> SparesMark(s.store, calls[0], k) && SparesMarkRun(env, Record(env, s, calls[0]), calls[1..], k)
  }

  lemma SparedMarkStep(env: Env, s: Session, call: Call, k: nat)
    requires SessionOk(s) && SafeCall(env, s, call) && s.store.active.Some? && k < |s.marks| &&
             SparesMark(s.store, call, k)
    ensures var next := Record(env, s, call);
            next.store.active.Some? && next.store.active.value.id == s.store.active.value.id && k < |next.marks| &&
                next.marks[k] == s.marks[k]
  {
    hide Unwind, StoreOk, LeadsTo, Perform;
    if IsActive(s.store, call.id) && call.action.RollbackTo? {
      var i := LastMark(s.store.active.value.savepoints, call.action.name);
      if i.Some? {
        RollbackToKeepsLog(s.store.db, s.store.active.value, s.base, s.marks, i.value);
      }
    }
  }

  lemma {:induction false} SparedMarkStays(env: Env, s: Session, calls: seq<Call>, k: nat)
    requires SessionOk(s) && SafeRun(env, s, calls) && s.store.active.Some? && k < |s.marks| &&
             SparesMarkRun(env, s, calls, k)
    ensures var e := Run(env, s, calls);
            e.store.active.Some? && e.store.active.value.id == s.store.active.value.id && k < |e.marks| &&
                e.marks[k] == s.marks[k]
    decreases |calls|
  {
    if calls != [] {
      SafeStep(env, s, calls[0]);
      SparedMarkStep(env, s, calls[0], k);
      SparedMarkStays(env, Record(env, s, calls[0]), calls[1..], k);
    }
  }

  /** Savepoint, any safe calls that leave it in place, roll back to it: the state is the one the
      savepoint was taken in, however the calls nested other savepoints in between. */
  lemma SavepointUndone(env: Env, s: Session, id: nat, name: string, calls: seq<Call>)
    requires SessionOk(s) && IsActive(s.store, id)
    requires SafeRun(env, Record(env, s, On(id, Mark(name))), calls)
    requires SparesMarkRun(env, Record(env, s, On(id, Mark(name))), calls, |s.marks|)
    requires var reached := Run(env, Record(env, s, On(id, Mark(name))), calls).store;
             reached.active.Some? && LastMark(reached.active.value.savepoints, name) == Some(|s.marks|)
    ensures var reached := Run(env, Record(env, s, On(id, Mark(name))), calls).store;
            var (after, error) := Step(env, reached, On(id, RollbackTo(name)));
            error.None? && SameUpToCounters(after.db, s.store.db)
  {
    var marked := Record(env, s, On(id, Mark(name)));
    SafeStep(env, s, On(id, Mark(name)));
    SafeRunOk(env, marked, calls);
    SparedMarkStays(env, marked, calls, |s.marks|);
    RollbackToRestores(env, Run(env, marked, calls), id, name);
  }
}
