/**
 A transactional map and the transactions that work on it: the calls that lock rows and record
 operations, and the commit, rollback, logging and recovery of whole operation lists.
 */
module TransMap {
  import opened Ordered
  import opened Rows
  import opened RowCommit

  type Key = int

  datatype Change = Change(key: Key, kind: Kind)
  datatype Rec = Rec(key: Key, entry: Entry)

  function Get(rows: map<Key, Row>, k: Key): Option<Row>
  {
    if k in rows then Some(rows[k]) else None
  }

  function Put(rows: map<Key, Row>, k: Key, r: Option<Row>): map<Key, Row>
  {
    if r.Some? then rows[k := r.value] else rows - {k}
  }

  lemma SameRows(a: map<Key, Row>, b: map<Key, Row>)
    requires forall k :: Get(a, k) == Get(b, k)
    ensures a == b
  {
    forall k ensures (k in a <==> k in b) && (k in a ==> a[k] == b[k]) {
      assert Get(a, k) == Get(b, k);
    }
  }

  /** The operations of a list that concern row `k`, in order. */
  function OpsOn(ops: seq<Change>, k: Key): seq<Kind>
  {
    if ops == [] then []
    else
      var before, last := OpsOn(ops[..|ops| - 1], k), ops[|ops| - 1];
      if last.key == k then before + [last.kind] else before
  }

  function EntriesOn(recs: seq<Rec>, k: Key): seq<Entry>
  {
    if recs == [] then []
    else if recs[0].key == k then [recs[0].entry] + EntriesOn(recs[1..], k)
    else EntriesOn(recs[1..], k)
  }

  // ---- whole lists, as the loops over them run

  function RollbackRows(rows: map<Key, Row>, ops: seq<Change>): map<Key, Row>
    decreases |ops|
  {
    if ops == [] then rows
    else
      var last := ops[|ops| - 1];
      RollbackRows(Put(rows, last.key, Undo(last.kind, Get(rows, last.key))), ops[..|ops| - 1])
  }

  function CommitRows(rows: map<Key, Row>, ops: seq<Change>, lsn: nat): map<Key, Row>
    decreases |ops|
  {
    if ops == [] then rows
    else
      var before := CommitRows(rows, ops[..|ops| - 1], lsn);
      var last := ops[|ops| - 1];
      Put(before, last.key, Commit(last.kind, Get(before, last.key), lsn))
  }

  function LogOps(ops: seq<Change>, rows: map<Key, Row>): seq<Rec>
  {
    if ops == [] then []
    else
      var last := ops[|ops| - 1];
      var entry := Logged(last.kind, Get(rows, last.key));
      var before := LogOps(ops[..|ops| - 1], rows);
      if entry.Some? then before + [Rec(last.key, entry.value)] else before
  }

  function ReplayRecs(rows: map<Key, Row>, recs: seq<Rec>, lsn: nat): map<Key, Row>
    decreases |recs|
  {
    if recs == [] then rows
    else ReplayRecs(Put(rows, recs[0].key, Replay(recs[0].entry, Get(rows, recs[0].key), lsn)), recs[1..], lsn)
  }

  // ---- a list acts on each row as its operations on that row do

  lemma {:induction false} RollbackOnRow(rows: map<Key, Row>, ops: seq<Change>, k: Key)
    ensures Get(RollbackRows(rows, ops), k) == UndoAll(OpsOn(ops, k), Get(rows, k))
    decreases |ops|
  {
    if ops != [] {
      var front, last := ops[..|ops| - 1], ops[|ops| - 1];
      var undone := Put(rows, last.key, Undo(last.kind, Get(rows, last.key)));
      RollbackOnRow(undone, front, k);
      if last.key == k {
        var all := OpsOn(ops, k);
        assert all[..|all| - 1] == OpsOn(front, k) && all[|all| - 1] == last.kind;
      }
    }
  }

  lemma {:induction false} CommitConcat(a: seq<Kind>, b: seq<Kind>, r: Option<Row>, lsn: nat)
    ensures CommitAll(a + b, r, lsn) == CommitAll(b, CommitAll(a, r, lsn), lsn)
  {
    if a == [] {
      assert a + b == b;
    } else {
      assert (a + b)[1..] == a[1..] + b;
      CommitConcat(a[1..], b, Commit(a[0], r, lsn), lsn);
    }
  }

  lemma {:induction false} CommitOnRow(rows: map<Key, Row>, ops: seq<Change>, lsn: nat, k: Key)
    ensures Get(CommitRows(rows, ops, lsn), k) == CommitAll(OpsOn(ops, k), Get(rows, k), lsn)
    decreases |ops|
  {
    if ops != [] {
      var front, last := ops[..|ops| - 1], ops[|ops| - 1];
      CommitOnRow(rows, front, lsn, k);
      if last.key == k {
        CommitConcat(OpsOn(front, k), [last.kind], Get(rows, k), lsn);
        assert [last.kind][1..] == [];
      }
    }
  }

  lemma {:induction false} EntriesConcat(a: seq<Rec>, b: seq<Rec>, k: Key)
    ensures EntriesOn(a + b, k) == EntriesOn(a, k) + EntriesOn(b, k)
  {
    if a == [] {
      assert a + b == b;
    } else {
      assert (a + b)[1..] == a[1..] + b;
      EntriesConcat(a[1..], b, k);
    }
  }

  lemma {:induction false} LogOnRow(ops: seq<Change>, rows: map<Key, Row>, k: Key)
    ensures EntriesOn(LogOps(ops, rows), k) == LogAll(OpsOn(ops, k), Get(rows, k))
    decreases |ops|
  {
    if ops != [] {
      var front, last := ops[..|ops| - 1], ops[|ops| - 1];
      LogOnRow(front, rows, k);
      var entry := Logged(last.kind, Get(rows, last.key));
      if entry.Some? {
        EntriesConcat(LogOps(front, rows), [Rec(last.key, entry.value)], k);
        assert [Rec(last.key, entry.value)][1..] == [];
      }
      if last.key == k {
        LogConcat(OpsOn(front, k), [last.kind], Get(rows, k));
        assert [last.kind][1..] == [];
      }
    }
  }

  lemma {:induction false} ReplayOnRow(rows: map<Key, Row>, recs: seq<Rec>, lsn: nat, k: Key)
    ensures Get(ReplayRecs(rows, recs, lsn), k) == ReplayAll(EntriesOn(recs, k), Get(rows, k), lsn)
    decreases |recs|
  {
    if recs != [] {
      var rows' := Put(rows, recs[0].key, Replay(recs[0].entry, Get(rows, recs[0].key), lsn));
      ReplayOnRow(rows', recs[1..], lsn, k);
    }
  }

  // ---- the code

  class Transaction {
    const transId: nat
    var outstandingChanges: seq<Change>
    var pendingChanges: map<Key, Value>

    constructor (id: nat)
      ensures transId == id && outstandingChanges == [] && pendingChanges == map[]
    {
      transId := id;
      outstandingChanges, pendingChanges := [], map[];
    }

    method InsertWorkInProgress(key: Key, kind: Kind)
      modifies this`outstandingChanges
      ensures outstandingChanges == old(outstandingChanges) + [Change(key, kind)]
    {
      outstandingChanges := outstandingChanges + [Change(key, kind)];
    }

    method Clear()
      modifies this`outstandingChanges, this`pendingChanges
      ensures outstandingChanges == [] && pendingChanges == map[]
    {
      outstandingChanges, pendingChanges := [], map[];
    }
  }

  class TransactionalMap {
    var rows: map<Key, Row>

    constructor ()
      ensures rows == map[]
    {
      rows := map[];
    }

    /** The call left map and transaction as the row's reaction says, and no other row changed. */
    twostate predicate Reacted(trans: Transaction, key: Key, call: Call, outcome: Outcome)
      reads this, trans
    {
      var a := React(trans.transId, Get(old(rows), key), call);
      && rows == Put(old(rows), key, a.row)
      && outcome == a.outcome
      && trans.outstandingChanges
         == old(trans.outstandingChanges) + (if a.recorded.Some? then [Change(key, a.recorded.value)] else [])
      && trans.pendingChanges
         == if a.pending.Some? then old(trans.pendingChanges)[key := a.pending.value] else old(trans.pendingChanges)
    }

    method Insert(key: Key, value: Value, trans: Transaction) returns (outcome: Outcome)
      modifies this, trans
      ensures Reacted(trans, key, Call.Insert(value), outcome)
    {
      if key !in rows {
        rows := rows[key := Row(value, InsertOp, trans.transId)];
        trans.InsertWorkInProgress(key, Inserted);
        return Done;
      }
      var row := rows[key];
      match row.op {
        case NoOp | LockOp | UpdateOp => outcome := AlreadyThere;
        case InsertOp =>
          if row.txnId != trans.transId {
            return Contention;
          }
          outcome := AlreadyThere;
        case DeleteOp =>
          if row.txnId != trans.transId {
            return Contention;
          }
          rows := rows[key := row.(op := UpdateOp, txnId := trans.transId)];
          trans.pendingChanges := trans.pendingChanges[key := value];
          trans.InsertWorkInProgress(key, Updated(trans.transId, DeleteOp, value));
          outcome := Done;
        case DeletedInsertOp => outcome := RecoveryNeeded;
      }
      assert rows == Put(rows, key, Get(rows, key));
    }

    method Update(key: Key, newValue: Value, trans: Transaction) returns (outcome: Outcome)
      modifies this, trans
      ensures Reacted(trans, key, Call.Update(newValue), outcome)
    {
      assert rows == Put(rows, key, Get(rows, key));
      if key !in rows {
        return NotFound;
      }
      var row := rows[key];
      if row.op != NoOp && row.txnId != trans.transId {
        return Contention;
      }
      var oldlock, oldop := row.txnId, row.op;
      match oldop {
        case InsertOp =>
          rows := rows[key := row.(value := newValue)];
          outcome := Done;
        case DeleteOp => outcome := RowDeleted;
        case NoOp | LockOp | UpdateOp =>
          rows := rows[key := row.(op := UpdateOp, txnId := trans.transId)];
          trans.pendingChanges := trans.pendingChanges[key := newValue];
          trans.InsertWorkInProgress(key, Updated(oldlock, oldop, newValue));
          outcome := Done;
        case DeletedInsertOp => outcome := RecoveryNeeded;
      }
    }

    method Erase(key: Key, trans: Transaction) returns (outcome: Outcome)
      modifies this, trans
      ensures Reacted(trans, key, Call.Erase, outcome)
    {
      assert rows == Put(rows, key, Get(rows, key));
      if key !in rows {
        return NotFound;
      }
      var row := rows[key];
      if row.op != NoOp && row.txnId != trans.transId {
        return Contention;
      }
      var oldlock, oldop := row.txnId, row.op;
      match oldop {
        case InsertOp =>
          rows := rows[key := row.(op := DeletedInsertOp, txnId := trans.transId)];
          trans.InsertWorkInProgress(key, DeletedInsert(oldlock, oldop));
          outcome := Done;
        case NoOp | LockOp | UpdateOp =>
          rows := rows[key := row.(op := DeleteOp, txnId := trans.transId)];
          trans.InsertWorkInProgress(key, Deleted(oldlock, oldop));
          outcome := Done;
        case DeleteOp => outcome := RowDeleted;
        case DeletedInsertOp => outcome := RecoveryNeeded;
      }
    }

    method Lock(key: Key, trans: Transaction) returns (outcome: Outcome)
      modifies this, trans
      ensures Reacted(trans, key, Call.Lock, outcome)
    {
      assert rows == Put(rows, key, Get(rows, key));
      if key !in rows {
        return NotFound;
      }
      var row := rows[key];
      if row.op != NoOp && row.txnId != trans.transId {
        return Contention;
      }
      if row.txnId != trans.transId {
        var oldlock, oldop := row.txnId, row.op;
        rows := rows[key := row.(op := LockOp, txnId := trans.transId)];
        trans.InsertWorkInProgress(key, Locked(oldlock, oldop));
      }
      outcome := Done;
    }

    /** `transactional_op_list::rollback`: the operations are undone in reverse order. */
    method RollbackChanges(trans: Transaction)
      modifies this
      ensures rows == RollbackRows(old(rows), trans.outstandingChanges)
    {
      var n := |trans.outstandingChanges|;
      assert trans.outstandingChanges[..n] == trans.outstandingChanges;
      while n > 0
        invariant 0 <= n <= |trans.outstandingChanges|
        invariant RollbackRows(rows, trans.outstandingChanges[..n]) == RollbackRows(old(rows), trans.outstandingChanges)
      {
        n := n - 1;
        var op := trans.outstandingChanges[n];
        assert trans.outstandingChanges[..n + 1][..n] == trans.outstandingChanges[..n];
        rows := Put(rows, op.key, Undo(op.kind, Get(rows, op.key)));
      }
    }

    /** `transactional_op_list::commit`, under the locks of phase 3. */
    method CommitChanges(trans: Transaction, lsn: nat)
      modifies this
      ensures rows == CommitRows(old(rows), trans.outstandingChanges, lsn)
    {
      var ops := trans.outstandingChanges;
      for i := 0 to |ops|
        invariant rows == CommitRows(old(rows), ops[..i], lsn)
      {
        assert ops[..i + 1][..i] == ops[..i];
        rows := Put(rows, ops[i].key, Commit(ops[i].kind, Get(rows, ops[i].key), lsn));
      }
      assert ops[..|ops|] == ops;
    }

    /** `transactional_op_list::add_to_log`, with the number of operations written. */
    method AddToLog(trans: Transaction) returns (recs: seq<Rec>, count: nat)
      ensures recs == LogOps(trans.outstandingChanges, rows) && count == |recs|
    {
      var ops := trans.outstandingChanges;
      recs, count := [], 0;
      for i := 0 to |ops|
        invariant recs == LogOps(ops[..i], rows) && count == |recs|
      {
        assert ops[..i + 1][..i] == ops[..i];
        var entry := Logged(ops[i].kind, Get(rows, ops[i].key));
        if entry.Some? {
          recs, count := recs + [Rec(ops[i].key, entry.value)], count + 1;
        }
      }
      assert ops[..|ops|] == ops;
    }

    /** `recover_txn`: the logged operations of one transaction, applied in order. */
    method RecoverTxn(recs: seq<Rec>, lsn: nat)
      modifies this
      ensures rows == ReplayRecs(old(rows), recs, lsn)
    {
      var i := 0;
      while i < |recs|
        invariant 0 <= i <= |recs|
        invariant ReplayRecs(rows, recs[i..], lsn) == ReplayRecs(old(rows), recs, lsn)
      {
        rows := Put(rows, recs[i].key, Replay(recs[i].entry, Get(rows, recs[i].key), lsn));
        i := i + 1;
      }
    }
  }
}
