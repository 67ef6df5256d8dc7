/** What the calls of a transaction mean: which of them succeed, and what the transaction sees afterwards. */
module Calls {
  import opened Ordered
  import opened Rows
  import opened RowCommit
  import opened TransMap
  import opened Transactions
  import opened Scan

  /** What a successful call leaves transaction `t` to see at its key, if it saw `seen` before. */
  function Meant(call: Call, seen: Option<Value>): Option<Value>
  {
    match call
    case Insert(v) => Some(v)
    case Update(v) => Some(v)
    case Erase => None
    case Lock => seen
  }

  /** The answer to a call on a row that no other transaction has locked. */
  function Answer(call: Call, committed: bool, seen: bool, own: bool): Outcome
  {
    match call
    case Insert(_) => if seen then AlreadyThere else if own && !committed then RecoveryNeeded else Done
    case Update(_) | Erase =>
      if seen then Done else if committed then RowDeleted else if own then RecoveryNeeded else NotFound
    case Lock => if committed || own then Done else NotFound
  }

  /** The answer on a row that another transaction has locked, which sees it or not. */
  function AnswerLocked(call: Call, committed: bool, seen: bool): Outcome
  {
    if !call.Insert? || committed != seen then Contention else if committed then AlreadyThere else RecoveryNeeded
  }

  // ---- one row

  /** What a chain makes of the committed row, in values. */
  ghost function Seen(kinds: seq<Kind>, b: Option<Row>, r: Option<Row>): Option<Value>
  {
    ValueOf(ReplayAll(LogAll(kinds, r), b, 0))
  }

  /** By the op code of the row: what its holder sees, and whether there is a committed row. */
  lemma SeenByOp(t: nat, b: Option<Row>, kinds: seq<Kind>, r: Option<Row>)
    requires Chain(t, b, kinds, r)
    ensures kinds == [] ==> Seen(kinds, b, r) == ValueOf(b) && r == b && Unlocked(b)
    ensures kinds != [] ==> r.Some? && r.value.txnId == t && r.value.op != NoOp
    ensures kinds != [] && r.value.op == InsertOp ==> Seen(kinds, b, r) == Some(r.value.value) && b == None
    ensures kinds != [] && r.value.op == LockOp ==> Seen(kinds, b, r) == Some(r.value.value) && b.Some?
    ensures kinds != [] && r.value.op == UpdateOp ==>
      LastUpdate(kinds).Some? && Seen(kinds, b, r) == Some(LastUpdate(kinds).value) && b.Some?
    ensures kinds != [] && r.value.op == DeleteOp ==> Seen(kinds, b, r) == None && b.Some?
    ensures kinds != [] && r.value.op == DeletedInsertOp ==> Seen(kinds, b, r) == None && b == None
  {
    if kinds != [] {
      var last := kinds[|kinds| - 1];
      ShortChain(t, b, kinds, r);
      ReplayLast(kinds, r, b, 0);
      if last.Updated? {
        LastUpdateCounts(kinds);
        ChainKeepsValue(t, b, kinds, r);
      } else if last.Deleted? {
        ChainKeepsValue(t, b, kinds, r);
      } else if !last.DeletedInsert? {
        SeenShort(t, b, kinds, r);
      }
    }
  }

  lemma SeenShort(t: nat, b: Option<Row>, kinds: seq<Kind>, r: Option<Row>)
    requires Chain(t, b, kinds, r) && kinds != [] && (kinds[|kinds| - 1].Inserted? || kinds[|kinds| - 1].Locked?)
    ensures kinds[|kinds| - 1].Inserted? ==> Seen(kinds, b, r) == Some(r.value.value)
    ensures kinds[|kinds| - 1].Locked? ==> Seen(kinds, b, r) == Some(r.value.value) && b.Some?
  {
    ShortChain(t, b, kinds, r);
    assert kinds[1..] == [];
    if kinds[|kinds| - 1].Inserted? {
      assert LogAll(kinds, r) == [PutNew(r.value.value)] && [PutNew(r.value.value)][1..] == [];
      assert ReplayAll([PutNew(r.value.value)], b, 0) == ReplayAll([], Replay(PutNew(r.value.value), b, 0), 0);
    } else {
      assert LogAll(kinds, r) == LogAll(kinds[1..], r) == [];
    }
  }

  /** The effect of a call on a row that the transaction may act on. */
  lemma CallOnChain(t: nat, b: Option<Row>, kinds: seq<Kind>, r: Option<Row>, call: Call)
    requires Chain(t, b, kinds, r)
    ensures var a := React(t, r, call); var kinds' := Appended(kinds, a.recorded);
      && (a.outcome == Done ==> Seen(kinds', b, a.row) == Meant(call, Seen(kinds, b, r)))
      && (a.outcome != Done ==> a.row == r && a.recorded == None && a.pending == None)
  {
    hide ReplayAll, LogAll, Seen, React;
    var a := React(t, r, call);
    var kinds' := Appended(kinds, a.recorded);
    CallExtendsChain(t, b, kinds, r, call);
    SeenByOp(t, b, kinds, r);
    SeenByOp(t, b, kinds', a.row);
    RecordedLast(t, kinds, r, call);
  }

  /** What a call records, in short. */
  lemma RecordedLast(t: nat, kinds: seq<Kind>, r: Option<Row>, call: Call)
    ensures var a := React(t, r, call);
      && (a.outcome != Done ==> a == Refuse(r, a.outcome))
      && (a.outcome == Done && a.recorded == None ==>
            a.row == match call case Update(v) => (if r.Some? then Some(r.value.(value := v)) else r) case _ => r)
      && (a.outcome == Done && a.recorded == None ==> r.Some? && (call.Lock? || (call.Update? && r.value.op == InsertOp)))
      && (a.recorded.Some? && a.recorded.value.Updated? ==>
            (call.Update? || call.Insert?) && a.row.Some? && a.row.value.op == UpdateOp
            && LastUpdate(Appended(kinds, a.recorded)) == Some(call.value))
      && (a.recorded.Some? && a.recorded.value.Inserted? ==>
            call.Insert? && r == None && a.row == Some(Row(call.value, InsertOp, t)))
      && (a.recorded.Some? && (a.recorded.value.Deleted? || a.recorded.value.DeletedInsert?) ==>
            call.Erase? && a.row.Some? && a.row.value.op in {DeleteOp, DeletedInsertOp})
      && (a.recorded.Some? && a.recorded.value.Locked? ==>
            call.Lock? && r.Some? && r.value.op == NoOp && a.row == Some(r.value.(op := LockOp, txnId := t)))
  {
    var a := React(t, r, call);
    if a.recorded.Some? {
      LastUpdateAppend(kinds, a.recorded.value);
    }
  }

  lemma AnswerOnChain(t: nat, b: Option<Row>, kinds: seq<Kind>, r: Option<Row>, call: Call)
    requires Chain(t, b, kinds, r)
    ensures React(t, r, call).outcome == Answer(call, b.Some?, Seen(kinds, b, r).Some?, kinds != [])
  {
    hide Seen, Chain;
    SeenByOp(t, b, kinds, r);
  }

  lemma AnswerOnOthers(t: nat, u: nat, b: Option<Row>, kinds: seq<Kind>, r: Option<Row>, call: Call)
    requires Chain(u, b, kinds, r) && kinds != [] && u != t
    ensures React(t, r, call).outcome == AnswerLocked(call, b.Some?, Seen(kinds, b, r).Some?)
  {
    hide Seen, Chain;
    SeenByOp(u, b, kinds, r);
  }

  // ---- every reachable state

  lemma InvokedState(s: Db, t: nat, k: Key, call: Call)
    requires Active(s, t)
    ensures var a := React(t, Get(s.rows, k), call); var s' := Apply(s, Invoke(t, k, call));
      && (a == Refuse(Get(s.rows, k), a.outcome) ==> s' == s)
      && s'.base == s.base && s'.log == s.log
  {
    hide React, OpsOn;
    var s' := Apply(s, Invoke(t, k, call));
    if React(t, Get(s.rows, k), call) == Refuse(Get(s.rows, k), React(t, Get(s.rows, k), call).outcome) {
      assert Put(s.rows, k, Get(s.rows, k)) == s.rows;
      assert s.txns[t := s.txns[t]] == s.txns;
    }
  }

  /**
   Read your own writes, in every reachable state.  After a call that succeeded the transaction sees at
   the key what the call was for, and at every other key what it saw before; a call that was refused
   changed nothing.
   */
  lemma CallIsSeen(es: seq<Event>, t: nat, k: Key, call: Call, j: Key)
    requires ValidRun(Empty, es) && Enabled(Exec(Empty, es), Invoke(t, k, call))
    ensures var s := Exec(Empty, es); var s' := Apply(s, Invoke(t, k, call));
      var outcome := React(t, Get(s.rows, k), call).outcome;
      && (outcome == Done ==> Overlay(s', t, k) == Meant(call, Overlay(s, t, k)))
      && (outcome == Done && j != k ==> Overlay(s', t, j) == Overlay(s, t, j))
      && (outcome != Done ==> s' == s)
  {
    hide React, Chain, OpsOn, LogAll, ReplayAll;
    var s := Exec(Empty, es);
    var r, a := Get(s.rows, k), React(t, Get(s.rows, k), call);
    RunKeepsChained(Empty, es);
    assert Chained(s, k);
    InvokedState(s, t, k, call);
    InvokeOnRow(s, t, k, call, t, k);
    InvokeOnRow(s, t, k, call, t, j);
    if !Unlocked(r) && r.value.txnId != t {
      CallOnOthersRow(t, r, call);
    } else {
      ChainNow(s, t, k);
      CallOnChain(t, Get(s.base, k), Ops(s, t, k), r, call);
    }
  }

  /** To nobody else does a call change anything: what other transactions see stays as it was. */
  lemma CallIsPrivate(es: seq<Event>, t: nat, k: Key, call: Call, u: nat, j: Key)
    requires ValidRun(Empty, es) && Enabled(Exec(Empty, es), Invoke(t, k, call)) && u != t
    ensures Overlay(Apply(Exec(Empty, es), Invoke(t, k, call)), u, j) == Overlay(Exec(Empty, es), u, j)
  {
    hide React, Chain, OpsOn, ReplayAll;
    var s := Exec(Empty, es);
    RunKeepsChained(Empty, es);
    assert Chained(s, k);
    InvokedState(s, t, k, call);
    InvokeOnRow(s, t, k, call, u, j);
    var r := Get(s.rows, k);
    if j == k && Owns(s, u, k) {
      OneOwner(s, u, k);
      CallOnOthersRow(t, r, call);
    }
  }

  /**
   Which calls succeed, in every reachable state, from what is committed at the key and what its lock
   holder, if there is one, sees there.
   */
  lemma CallAnswer(es: seq<Event>, t: nat, k: Key, call: Call)
    requires ValidRun(Empty, es)
    ensures var s := Exec(Empty, es); var outcome := React(t, Get(s.rows, k), call).outcome;
      && (forall u :: u != t && Owns(s, u, k) ==>
            outcome == AnswerLocked(call, k in s.base, Overlay(s, u, k).Some?))
      && ((forall u :: u != t ==> !Owns(s, u, k)) ==>
            outcome == Answer(call, k in s.base, Overlay(s, t, k).Some?, Owns(s, t, k)))
  {
    hide React, Chain, OpsOn, LogAll, ReplayAll;
    var s := Exec(Empty, es);
    RunKeepsChained(Empty, es);
    assert Chained(s, k);
    var r, b := Get(s.rows, k), Get(s.base, k);
    forall u | u != t && Owns(s, u, k)
      ensures React(t, r, call).outcome == AnswerLocked(call, k in s.base, Overlay(s, u, k).Some?)
    {
      AnswerOnOthers(t, u, b, Ops(s, u, k), r, call);
    }
    if forall u :: u != t ==> !Owns(s, u, k) {
      ChainNow(s, t, k);
      AnswerOnChain(t, b, Ops(s, t, k), r, call);
    }
  }
}
