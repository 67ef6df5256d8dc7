/**
 One row of a transactional map: what the calls of a transaction do to it, what the recorded
 operations do when they are undone, committed and logged, and what recovery does with the log.
 */
module Rows {
  import opened Ordered

  type Value = seq<bv8>

  datatype RowOp = NoOp | LockOp | InsertOp | UpdateOp | DeleteOp | DeletedInsertOp

  /** A stored row; `txnId` is the lock holder while an operation is pending, else the LSN of the last commit. */
  datatype Row = Row(value: Value, op: RowOp, txnId: nat)

  /** A recorded operation on one row, with the lock id and op code it replaced. */
  datatype Kind =
    | Inserted
    | Updated(prevId: nat, prevOp: RowOp, value: Value)
    | Deleted(prevId: nat, prevOp: RowOp)
    | DeletedInsert(prevId: nat, prevOp: RowOp)
    | Locked(prevId: nat, prevOp: RowOp)

  datatype Call = Insert(value: Value) | Update(value: Value) | Erase | Lock

  datatype Outcome = Done | AlreadyThere | NotFound | Contention | RowDeleted | RecoveryNeeded

  /** What a call leaves behind: the row, the operation recorded and the pending update, if any. */
  datatype Reaction = Reaction(row: Option<Row>, recorded: Option<Kind>, pending: Option<Value>, outcome: Outcome)

  function Refuse(r: Option<Row>, outcome: Outcome): Reaction
  {
    Reaction(r, None, None, outcome)
  }

  function Stamped(r: Row, t: nat, op: RowOp): Option<Row>
  {
    Some(r.(op := op, txnId := t))
  }

  function InsertReaction(t: nat, r: Option<Row>, v: Value): Reaction
  {
    match r
    case None => Reaction(Some(Row(v, InsertOp, t)), Some(Inserted), None, Done)
    case Some(row) =>
      match row.op
      case NoOp | LockOp | UpdateOp => Refuse(r, AlreadyThere)
      case InsertOp => Refuse(r, if row.txnId != t then Contention else AlreadyThere)
      case DeleteOp =>
        if row.txnId == t
        then Reaction(Stamped(row, t, UpdateOp), Some(Updated(t, DeleteOp, v)), Some(v), Done)
        else Refuse(r, Contention)
      case DeletedInsertOp => Refuse(r, RecoveryNeeded)
  }

  function UpdateReaction(t: nat, row: Row, v: Value): Reaction
  {
    if row.op != NoOp && row.txnId != t then Refuse(Some(row), Contention)
    else
      match row.op
      case InsertOp => Reaction(Some(row.(value := v)), None, None, Done)
      case DeleteOp => Refuse(Some(row), RowDeleted)
      case NoOp | LockOp | UpdateOp =>
        Reaction(Stamped(row, t, UpdateOp), Some(Updated(row.txnId, row.op, v)), Some(v), Done)
      case DeletedInsertOp => Refuse(Some(row), RecoveryNeeded)
  }

  function EraseReaction(t: nat, row: Row): Reaction
  {
    if row.op != NoOp && row.txnId != t then Refuse(Some(row), Contention)
    else
      match row.op
      case InsertOp =>
        Reaction(Stamped(row, t, DeletedInsertOp), Some(DeletedInsert(row.txnId, row.op)), None, Done)
      case NoOp | LockOp | UpdateOp =>
        Reaction(Stamped(row, t, DeleteOp), Some(Deleted(row.txnId, row.op)), None, Done)
      case DeleteOp => Refuse(Some(row), RowDeleted)
      case DeletedInsertOp => Refuse(Some(row), RecoveryNeeded)
  }

  function LockReaction(t: nat, row: Row): Reaction
  {
    if row.op != NoOp && row.txnId != t then Refuse(Some(row), Contention)
    else if row.txnId != t then
      Reaction(Stamped(row, t, LockOp), Some(Locked(row.txnId, row.op)), None, Done)
    else Refuse(Some(row), Done)
  }

  function React(t: nat, r: Option<Row>, call: Call): Reaction
  {
    match call
    case Insert(v) => InsertReaction(t, r, v)
    case Update(v) => if r.None? then Refuse(r, NotFound) else UpdateReaction(t, r.value, v)
    case Erase => if r.None? then Refuse(r, NotFound) else EraseReaction(t, r.value)
    case Lock => if r.None? then Refuse(r, NotFound) else LockReaction(t, r.value)
  }

  // ---- undoing and committing a recorded operation

  function Undo(kind: Kind, r: Option<Row>): Option<Row>
  {
    match r
    case None => None
    case Some(row) => if kind.Inserted? then None else Some(row.(txnId := kind.prevId, op := kind.prevOp))
  }

  /** The row operations of a list, undone last to first. */
  function UndoAll(kinds: seq<Kind>, r: Option<Row>): Option<Row>
  {
    if kinds == [] then r else UndoAll(kinds[..|kinds| - 1], Undo(kinds[|kinds| - 1], r))
  }

  function Commit(kind: Kind, r: Option<Row>, lsn: nat): Option<Row>
  {
    match r
    case None => None
    case Some(row) =>
      match kind
      case Inserted => if row.op == InsertOp then Some(Row(row.value, NoOp, lsn)) else r
      case Updated(_, _, v) => if row.op == UpdateOp then Some(Row(v, NoOp, lsn)) else r
      case Deleted(_, _) => if row.op == DeleteOp then None else r
      case DeletedInsert(_, _) => if row.op == DeletedInsertOp then None else r
      case Locked(prevId, _) => if row.op == LockOp then Some(Row(row.value, NoOp, prevId)) else r
  }

  function CommitAll(kinds: seq<Kind>, r: Option<Row>, lsn: nat): Option<Row>
  {
    if kinds == [] then r else CommitAll(kinds[1..], Commit(kinds[0], r, lsn), lsn)
  }

  /** No operation of the list follows an iterator to a row that an earlier one has erased. */
  predicate Safe(kinds: seq<Kind>, r: Option<Row>, lsn: nat)
  {
    kinds == [] || (r.Some? && Safe(kinds[1..], Commit(kinds[0], r, lsn), lsn))
  }

  // ---- the log

  datatype Entry = PutNew(value: Value) | PutOver(value: Value) | Drop

  /** What `add_to_log` writes for an operation on the row `r` as it is when the transaction commits. */
  function Logged(kind: Kind, r: Option<Row>): Option<Entry>
  {
    match kind
    case Inserted => if r.Some? then Some(PutNew(r.value.value)) else None
    case Updated(_, _, v) => Some(PutOver(v))
    case Deleted(_, _) | DeletedInsert(_, _) => Some(Drop)
    case Locked(_, _) => None
  }

  function LogAll(kinds: seq<Kind>, r: Option<Row>): seq<Entry>
  {
    if kinds == [] then []
    else
      var first := Logged(kinds[0], r);
      if first.Some? then [first.value] + LogAll(kinds[1..], r) else LogAll(kinds[1..], r)
  }

  /** The `recover` methods: insert unless present, insert or update, erase if present. */
  function Replay(e: Entry, r: Option<Row>, lsn: nat): Option<Row>
  {
    match e
    case PutNew(v) => if r.None? then Some(Row(v, NoOp, lsn)) else r
    case PutOver(v) => Some(Row(v, NoOp, lsn))
    case Drop => None
  }

  function ReplayAll(es: seq<Entry>, r: Option<Row>, lsn: nat): Option<Row>
  {
    if es == [] then r else ReplayAll(es[1..], Replay(es[0], r, lsn), lsn)
  }

  // ---- the chain of operations one transaction has recorded on one row

  predicate Unlocked(r: Option<Row>)
  {
    r.None? || r.value.op == NoOp
  }

  function StampOf(kind: Kind): RowOp
  {
    match kind
    case Inserted => InsertOp
    case Updated(_, _, _) => UpdateOp
    case Deleted(_, _) => DeleteOp
    case DeletedInsert(_, _) => DeletedInsertOp
    case Locked(_, _) => LockOp
  }

  predicate Fits(kind: Kind)
  {
    match kind
    case Inserted => true
    case Updated(_, op, _) => op in {NoOp, LockOp, UpdateOp, DeleteOp}
    case Deleted(_, op) => op in {NoOp, LockOp, UpdateOp}
    case DeletedInsert(_, op) => op == InsertOp
    case Locked(_, op) => op == NoOp
  }

  /** Transaction `t` has taken the committed row `b` to `r` by recording `kinds`, in this order. */
  ghost predicate Chain(t: nat, b: Option<Row>, kinds: seq<Kind>, r: Option<Row>)
    decreases |kinds|
  {
    if kinds == [] then r == b && Unlocked(b)
    else
      var last := kinds[|kinds| - 1];
      && r.Some? && r.value.txnId == t && r.value.op == StampOf(last) && Fits(last)
      && Chain(t, b, kinds[..|kinds| - 1], Undo(last, r))
  }

  function Appended(kinds: seq<Kind>, recorded: Option<Kind>): seq<Kind>
  {
    if recorded.Some? then kinds + [recorded.value] else kinds
  }

  /** Every call, whatever its outcome, extends the chain by exactly what it recorded. */
  lemma CallExtendsChain(t: nat, b: Option<Row>, kinds: seq<Kind>, r: Option<Row>, call: Call)
    requires Chain(t, b, kinds, r)
    ensures var a := React(t, r, call); Chain(t, b, Appended(kinds, a.recorded), a.row)
  {
    var a := React(t, r, call);
    if a.recorded.Some? {
      var longer := kinds + [a.recorded.value];
      assert longer[..|longer| - 1] == kinds;
      assert Undo(a.recorded.value, a.row) == r;
    }
  }

  /**
   A lock that is reported done is held, exactly unless the row was unlocked and last committed with an
   LSN equal to the transaction's own id.
   */
  lemma LockIsHeld(t: nat, row: Row)
    requires LockReaction(t, row).outcome == Done
    ensures var r := LockReaction(t, row).row;
      !Unlocked(r) && r.value.txnId == t <==> !(row.op == NoOp && row.txnId == t)
  {
    assert row.op != NoOp ==> row.txnId == t;
  }

  /** A call on a row another transaction has locked changes nothing. */
  lemma CallOnOthersRow(t: nat, r: Option<Row>, call: Call)
    requires !Unlocked(r) && r.value.txnId != t
    ensures React(t, r, call) == Refuse(r, React(t, r, call).outcome)
    ensures React(t, r, call).outcome in {Contention, AlreadyThere, RecoveryNeeded}
  {
  }

  /** Rollback of the chain gives the committed row back: value, op code and id. */
  lemma {:induction false} UndoRestores(t: nat, b: Option<Row>, kinds: seq<Kind>, r: Option<Row>)
    requires Chain(t, b, kinds, r)
    ensures UndoAll(kinds, r) == b
    decreases |kinds|
  {
    if kinds != [] {
      UndoRestores(t, b, kinds[..|kinds| - 1], Undo(kinds[|kinds| - 1], r));
    }
  }
}
