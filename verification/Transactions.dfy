/**
 Any number of transactions on one map, as a protocol: calls, queueing for the log, the commit of the
 recorded operations after the log write, and rollback, in any interleaving.
 */
module Transactions {
  import opened Ordered
  import opened Rows
  import opened RowCommit
  import opened TransMap

  datatype Phase = Working | InLog(lsn: nat)
  datatype Txn = Txn(ops: seq<Change>, pending: map<Key, Value>, phase: Phase)
  datatype LogTxn = LogTxn(lsn: nat, recs: seq<Rec>)

  /** `base` is the committed map; no event reads it. */
  datatype Db = Db(rows: map<Key, Row>, txns: map<nat, Txn>, log: seq<LogTxn>, base: map<Key, Row>)

  datatype Event =
    | Begin(t: nat)
    | Invoke(t: nat, k: Key, call: Call)
    | Queue(t: nat)
    | CommitTxn(t: nat)
    | CommitEmpty(t: nat)
    | Abort(t: nat)

  predicate Active(s: Db, t: nat)
  {
    t in s.txns && s.txns[t].phase.Working?
  }

  predicate Enabled(s: Db, e: Event)
  {
    match e
    case Begin(t) => t !in s.txns
    case Invoke(t, k, call) => Active(s, t)
    case Queue(t) => Active(s, t) && LogOps(s.txns[t].ops, s.rows) != []
    case CommitTxn(t) => t in s.txns && s.txns[t].phase.InLog?
    case CommitEmpty(t) => Active(s, t) && s.txns[t].ops == []
    case Abort(t) => Active(s, t)
  }

  /** The committed map after the rows of `ops` have been committed as they are in `rows`. */
  function Rebase(base: map<Key, Row>, rows: map<Key, Row>, ops: seq<Change>): map<Key, Row>
  {
    if ops == [] then base
    else
      var last := ops[|ops| - 1];
      Put(Rebase(base, rows, ops[..|ops| - 1]), last.key, Get(rows, last.key))
  }

  function Invoked(x: Txn, k: Key, a: Reaction): Txn
  {
    Txn(if a.recorded.Some? then x.ops + [Change(k, a.recorded.value)] else x.ops,
        if a.pending.Some? then x.pending[k := a.pending.value] else x.pending,
        x.phase)
  }

  function Apply(s: Db, e: Event): Db
    requires Enabled(s, e)
  {
    match e
    case Begin(t) => s.(txns := s.txns[t := Txn([], map[], Working)])
    case Invoke(t, k, call) =>
      var a := React(t, Get(s.rows, k), call);
      s.(rows := Put(s.rows, k, a.row), txns := s.txns[t := Invoked(s.txns[t], k, a)])
    case Queue(t) =>
      var lsn := |s.log| + 1;
      s.(log := s.log + [LogTxn(lsn, LogOps(s.txns[t].ops, s.rows))],
         txns := s.txns[t := s.txns[t].(phase := InLog(lsn))])
    case CommitTxn(t) =>
      var x := s.txns[t];
      var rows := CommitRows(s.rows, x.ops, x.phase.lsn);
      s.(rows := rows, txns := s.txns - {t}, base := Rebase(s.base, rows, x.ops))
    case CommitEmpty(t) => s.(txns := s.txns - {t})
    case Abort(t) => s.(rows := RollbackRows(s.rows, s.txns[t].ops), txns := s.txns - {t})
  }

  const Empty: Db := Db(map[], map[], [], map[])

  predicate ValidRun(s: Db, es: seq<Event>)
    decreases |es|
  {
    es == [] || (Enabled(s, es[0]) && ValidRun(Apply(s, es[0]), es[1..]))
  }

  function Exec(s: Db, es: seq<Event>): Db
    requires ValidRun(s, es)
    decreases |es|
  {
    if es == [] then s else Exec(Apply(s, es[0]), es[1..])
  }

  /** What recovery makes of the log, from an empty map. */
  function ReplayLog(log: seq<LogTxn>): map<Key, Row>
  {
    if log == [] then map[]
    else
      var last := log[|log| - 1];
      ReplayRecs(ReplayLog(log[..|log| - 1]), last.recs, last.lsn)
  }

  // ---- the invariant

  ghost function Ops(s: Db, t: nat, k: Key): seq<Kind>
  {
    if t in s.txns then OpsOn(s.txns[t].ops, k) else []
  }

  ghost predicate Owns(s: Db, t: nat, k: Key)
  {
    Ops(s, t, k) != []
  }

  /** The recorded operations of a transaction on the row lead from the committed row to the stored one. */
  ghost predicate Chained(s: Db, k: Key)
  {
    && (forall t :: Owns(s, t, k) ==> Chain(t, Get(s.base, k), Ops(s, t, k), Get(s.rows, k)))
    && (Unlocked(Get(s.rows, k)) ==> Get(s.rows, k) == Get(s.base, k))
    && (!Unlocked(Get(s.rows, k)) ==> Owns(s, s.rows[k].txnId, k))
    && Unlocked(Get(s.base, k))
  }

  /** The row after its logged but not yet applied transaction, if it has one, is counted in. */
  ghost function Durable(s: Db, k: Key): Option<Row>
  {
    var r := Get(s.rows, k);
    if !Unlocked(r) && r.value.txnId in s.txns && s.txns[r.value.txnId].phase.InLog? then
      ReplayAll(LogAll(Ops(s, r.value.txnId, k), r), Get(s.base, k), s.txns[r.value.txnId].phase.lsn)
    else Get(s.base, k)
  }

  ghost predicate LogAgrees(s: Db, k: Key)
  {
    Get(ReplayLog(s.log), k) == Durable(s, k)
  }

  /** Each row's operations by `t` commit to what they log. */
  ghost predicate TameTxn(s: Db, t: nat)
  {
    forall k :: Owns(s, t, k) ==> Tame(Ops(s, t, k), Get(s.rows, k))
  }

  ghost predicate LoggedAreTame(s: Db)
  {
    forall t :: t in s.txns && s.txns[t].phase.InLog? ==> TameTxn(s, t)
  }

  /** The pending value a transaction keeps for a row is its last update of it. */
  ghost predicate PendingAgrees(s: Db, k: Key)
  {
    forall t :: Owns(s, t, k) && LastUpdate(Ops(s, t, k)).Some? ==>
      k in s.txns[t].pending && s.txns[t].pending[k] == LastUpdate(Ops(s, t, k)).value
  }

  // ---- what an event does to one row's operations

  lemma OpsOnAppend(ops: seq<Change>, c: Change, k: Key)
    ensures OpsOn(ops + [c], k) == if c.key == k then OpsOn(ops, k) + [c.kind] else OpsOn(ops, k)
  {
    assert (ops + [c])[..|ops + [c]| - 1] == ops;
  }

  lemma {:induction false} RebaseOnRow(base: map<Key, Row>, rows: map<Key, Row>, ops: seq<Change>, k: Key)
    ensures Get(Rebase(base, rows, ops), k) == if OpsOn(ops, k) != [] then Get(rows, k) else Get(base, k)
  {
    if ops != [] {
      RebaseOnRow(base, rows, ops[..|ops| - 1], k);
    }
  }

  /** Only one transaction has operations on a row, and the row carries its id. */
  lemma OneOwner(s: Db, t: nat, k: Key)
    requires Chained(s, k) && Owns(s, t, k)
    ensures !Unlocked(Get(s.rows, k)) && s.rows[k].txnId == t
    ensures forall u :: Owns(s, u, k) ==> u == t
  {
    forall u | Owns(s, u, k) ensures s.rows[k].txnId == u {
      assert Chain(u, Get(s.base, k), Ops(s, u, k), Get(s.rows, k));
    }
  }

  /** The transaction may act on the row: then its chain, possibly empty, reaches the stored row. */
  lemma ChainNow(s: Db, t: nat, k: Key)
    requires Chained(s, k) && (Unlocked(Get(s.rows, k)) || s.rows[k].txnId == t)
    ensures Chain(t, Get(s.base, k), Ops(s, t, k), Get(s.rows, k))
    ensures forall u :: u != t ==> !Owns(s, u, k)
  {
    forall u | Owns(s, u, k) ensures u == t {
      OneOwner(s, u, k);
    }
  }

  /** What one call does to the operations of any transaction on any row, and to the row. */
  lemma InvokeOnRow(s: Db, t: nat, k: Key, call: Call, u: nat, j: Key)
    requires Active(s, t)
    ensures var a := React(t, Get(s.rows, k), call); var s' := Apply(s, Invoke(t, k, call));
      && Ops(s', u, j) == (if u == t && j == k then Appended(Ops(s, t, k), a.recorded) else Ops(s, u, j))
      && Get(s'.rows, j) == (if j == k then a.row else Get(s.rows, j))
  {
    var a := React(t, Get(s.rows, k), call);
    if a.recorded.Some? {
      OpsOnAppend(s.txns[t].ops, Change(k, a.recorded.value), j);
    }
  }

  lemma InvokeKeepsChained(s: Db, t: nat, k: Key, call: Call, j: Key)
    requires Chained(s, j) && Active(s, t)
    ensures Chained(Apply(s, Invoke(t, k, call)), j)
  {
    hide React, OpsOn, Chain;
    var r := Get(s.rows, k);
    var a := React(t, r, call);
    var s' := Apply(s, Invoke(t, k, call));
    forall u
      ensures Ops(s', u, j) == if u == t && j == k then Appended(Ops(s, t, k), a.recorded) else Ops(s, u, j)
      ensures Get(s'.rows, j) == if j == k then a.row else Get(s.rows, j)
    {
      InvokeOnRow(s, t, k, call, u, j);
    }
    if j == k {
      if !Unlocked(r) && r.value.txnId != t {
        CallOnOthersRow(t, r, call);
      } else {
        ChainNow(s, t, k);
        CallExtendsChain(t, Get(s.base, k), Ops(s, t, k), r, call);
        assert Ops(s', t, k) == Appended(Ops(s, t, k), a.recorded);
        ChainEnds(t, Get(s.base, k), Ops(s', t, k), a.row);
        forall u | Owns(s', u, k) ensures u == t {
          assert u != t ==> !Owns(s, u, k);
        }
        assert Get(s'.rows, k) == a.row;
      }
    }
  }

  lemma ChainEnds(t: nat, b: Option<Row>, kinds: seq<Kind>, r: Option<Row>)
    requires Chain(t, b, kinds, r)
    ensures Unlocked(b)
    ensures kinds == [] ==> r == b
    ensures kinds != [] ==> !Unlocked(r) && r.value.txnId == t
  {
    if kinds != [] {
      ChainEnds(t, b, kinds[..|kinds| - 1], Undo(kinds[|kinds| - 1], r));
    }
  }

  // ---- the other events, row by row

  lemma {:induction false} CommitGone(kinds: seq<Kind>, lsn: nat)
    ensures CommitAll(kinds, None, lsn) == None
  {
    if kinds != [] {
      CommitGone(kinds[1..], lsn);
    }
  }

  lemma {:induction false} CommitErases(kinds: seq<Kind>, r: Row, lsn: nat)
    requires r.op == DeleteOp && kinds != [] && kinds[|kinds| - 1].Deleted?
    ensures CommitAll(kinds, Some(r), lsn) == None
  {
    if kinds[0].Deleted? {
      CommitGone(kinds[1..], lsn);
    } else {
      CommitErases(kinds[1..], r, lsn);
    }
  }

  /** Whatever it did, a transaction that commits leaves the row unlocked. */
  lemma CommitUnlocks(t: nat, b: Option<Row>, kinds: seq<Kind>, r: Option<Row>, lsn: nat)
    requires Chain(t, b, kinds, r) && kinds != []
    ensures Unlocked(CommitAll(kinds, r, lsn))
  {
    var last := kinds[|kinds| - 1];
    if last.Deleted? {
      CommitErases(kinds, r.value, lsn);
    } else if last.Updated? {
      CommitUpdated(kinds, r.value, lsn);
      LastUpdateCounts(kinds);
    } else {
      ShortChain(t, b, kinds, r);
      assert |kinds| == 1 ==> kinds[1..] == [];
      assert |kinds| == 2 ==> kinds[1..] == [last] && [last][1..] == [];
      assert CommitAll([last], r, lsn) == Commit(last, r, lsn);
    }
  }

  lemma CommitOnOneRow(s: Db, t: nat, k: Key, u: nat)
    requires t in s.txns && s.txns[t].phase.InLog?
    ensures var s' := Apply(s, CommitTxn(t)); var lsn := s.txns[t].phase.lsn;
      && Get(s'.rows, k) == CommitAll(Ops(s, t, k), Get(s.rows, k), lsn)
      && Get(s'.base, k) == (if Owns(s, t, k) then Get(s'.rows, k) else Get(s.base, k))
      && Ops(s', u, k) == (if u == t then [] else Ops(s, u, k))
  {
    CommitOnRow(s.rows, s.txns[t].ops, s.txns[t].phase.lsn, k);
    RebaseOnRow(s.base, CommitRows(s.rows, s.txns[t].ops, s.txns[t].phase.lsn), s.txns[t].ops, k);
  }

  lemma AbortOnOneRow(s: Db, t: nat, k: Key, u: nat)
    requires Active(s, t)
    ensures var s' := Apply(s, Abort(t));
      && Get(s'.rows, k) == UndoAll(Ops(s, t, k), Get(s.rows, k))
      && Ops(s', u, k) == (if u == t then [] else Ops(s, u, k))
  {
    RollbackOnRow(s.rows, s.txns[t].ops, k);
  }

  lemma CommitKeepsChained(s: Db, t: nat, k: Key)
    requires Chained(s, k) && t in s.txns && s.txns[t].phase.InLog?
    ensures Chained(Apply(s, CommitTxn(t)), k)
  {
    hide OpsOn, Chain, CommitAll, CommitRows, Rebase;
    var s' := Apply(s, CommitTxn(t));
    forall u ensures Ops(s', u, k) == if u == t then [] else Ops(s, u, k) {
      CommitOnOneRow(s, t, k, u);
    }
    CommitOnOneRow(s, t, k, t);
    if Owns(s, t, k) {
      OneOwner(s, t, k);
      CommitUnlocks(t, Get(s.base, k), Ops(s, t, k), Get(s.rows, k), s.txns[t].phase.lsn);
      forall u ensures !Owns(s', u, k) {
        assert Owns(s, u, k) ==> u == t;
      }
    } else {
      CommitNothing(Get(s.rows, k), s.txns[t].phase.lsn);
    }
  }

  lemma CommitNothing(r: Option<Row>, lsn: nat)
    ensures CommitAll([], r, lsn) == r
  {
  }

  lemma AbortKeepsChained(s: Db, t: nat, k: Key)
    requires Chained(s, k) && Active(s, t)
    ensures Chained(Apply(s, Abort(t)), k)
    ensures Owns(s, t, k) ==> Get(Apply(s, Abort(t)).rows, k) == Get(s.base, k)
    ensures !Owns(s, t, k) ==> Get(Apply(s, Abort(t)).rows, k) == Get(s.rows, k)
  {
    hide OpsOn, RollbackRows;
    var s' := Apply(s, Abort(t));
    forall u ensures Ops(s', u, k) == if u == t then [] else Ops(s, u, k) {
      AbortOnOneRow(s, t, k, u);
    }
    AbortOnOneRow(s, t, k, t);
    if Owns(s, t, k) {
      OneOwner(s, t, k);
      UndoRestores(t, Get(s.base, k), Ops(s, t, k), Get(s.rows, k));
      forall u ensures !Owns(s', u, k) {
        assert Owns(s, u, k) ==> u == t;
      }
    }
  }

  lemma EventKeepsChained(s: Db, e: Event, k: Key)
    requires Chained(s, k) && Enabled(s, e)
    ensures Chained(Apply(s, e), k)
  {
    match e
    case Invoke(t, j, call) => InvokeKeepsChained(s, t, j, call, k);
    case CommitTxn(t) => CommitKeepsChained(s, t, k);
    case Abort(t) => AbortKeepsChained(s, t, k);
    case _ =>
      var s' := Apply(s, e);
      assert forall u :: Ops(s', u, k) == Ops(s, u, k);
  }

  // ---- the log

  lemma InvokeKeepsLog(s: Db, t: nat, k: Key, call: Call, j: Key)
    requires Chained(s, j) && LogAgrees(s, j) && Active(s, t)
    ensures LogAgrees(Apply(s, Invoke(t, k, call)), j)
  {
    hide React, OpsOn, Chain, ReplayAll, LogAll;
    var r := Get(s.rows, k);
    var s' := Apply(s, Invoke(t, k, call));
    forall u
      ensures Ops(s', u, j) == if u == t && j == k then Appended(Ops(s, t, k), React(t, r, call).recorded) else Ops(s, u, j)
      ensures Get(s'.rows, j) == if j == k then React(t, r, call).row else Get(s.rows, j)
    {
      InvokeOnRow(s, t, k, call, u, j);
    }
    if j == k && !Unlocked(r) && r.value.txnId != t {
      CallOnOthersRow(t, r, call);
    } else if j == k {
      InvokeKeepsChained(s, t, k, call, j);
      ChainNow(s, t, k);
      CallExtendsChain(t, Get(s.base, k), Ops(s, t, k), r, call);
      ChainEnds(t, Get(s.base, k), Ops(s', t, k), React(t, r, call).row);
    }
  }

  lemma QueueKeepsLog(s: Db, t: nat, k: Key)
    requires Chained(s, k) && LogAgrees(s, k) && Enabled(s, Queue(t))
    ensures LogAgrees(Apply(s, Queue(t)), k)
  {
    hide OpsOn, Chain;
    var s' := Apply(s, Queue(t));
    var lsn, recs := |s.log| + 1, LogOps(s.txns[t].ops, s.rows);
    assert s'.log[..|s'.log| - 1] == s.log;
    ReplayOnRow(ReplayLog(s.log), recs, lsn, k);
    LogOnRow(s.txns[t].ops, s.rows, k);
    assert forall u :: Ops(s', u, k) == Ops(s, u, k);
    if Owns(s, t, k) {
      OneOwner(s, t, k);
    }
  }

  lemma CommitKeepsLog(s: Db, t: nat, k: Key)
    requires Chained(s, k) && LogAgrees(s, k) && Enabled(s, CommitTxn(t)) && TameTxn(s, t)
    ensures LogAgrees(Apply(s, CommitTxn(t)), k)
  {
    hide OpsOn, Chain, CommitAll, CommitRows, Rebase, ReplayAll, LogAll, Tame;
    var s' := Apply(s, CommitTxn(t));
    forall u ensures Ops(s', u, k) == if u == t then [] else Ops(s, u, k) {
      CommitOnOneRow(s, t, k, u);
    }
    CommitOnOneRow(s, t, k, t);
    if Owns(s, t, k) {
      OneOwner(s, t, k);
      CommitAgreesWithLog(t, Get(s.base, k), Ops(s, t, k), Get(s.rows, k), s.txns[t].phase.lsn);
      CommitUnlocks(t, Get(s.base, k), Ops(s, t, k), Get(s.rows, k), s.txns[t].phase.lsn);
    } else {
      CommitNothing(Get(s.rows, k), s.txns[t].phase.lsn);
    }
  }

  lemma AbortKeepsLog(s: Db, t: nat, k: Key)
    requires Chained(s, k) && LogAgrees(s, k) && Active(s, t)
    ensures LogAgrees(Apply(s, Abort(t)), k)
  {
    hide OpsOn, Chain, UndoAll, RollbackRows, ReplayAll, LogAll;
    var s' := Apply(s, Abort(t));
    AbortKeepsChained(s, t, k);
    forall u ensures Ops(s', u, k) == if u == t then [] else Ops(s, u, k) {
      AbortOnOneRow(s, t, k, u);
    }
    if Owns(s, t, k) {
      OneOwner(s, t, k);
    }
  }

  lemma EventKeepsLog(s: Db, e: Event, k: Key)
    requires Chained(s, k) && LogAgrees(s, k) && Enabled(s, e)
    requires e.CommitTxn? ==> TameTxn(s, e.t)
    ensures LogAgrees(Apply(s, e), k)
  {
    match e
    case Invoke(t, j, call) => InvokeKeepsLog(s, t, j, call, k);
    case Queue(t) => QueueKeepsLog(s, t, k);
    case CommitTxn(t) => CommitKeepsLog(s, t, k);
    case Abort(t) => AbortKeepsLog(s, t, k);
    case _ =>
      var s' := Apply(s, e);
      hide ReplayAll, LogAll, OpsOn;
      assert forall u :: Ops(s', u, k) == Ops(s, u, k);
      if !Unlocked(Get(s.rows, k)) {
        assert Owns(s, s.rows[k].txnId, k);
        assert e.CommitEmpty? ==> !Owns(s, e.t, k);
      }
  }

  /** A logged transaction's rows stay as they are, locked, until it is applied. */
  lemma EventKeepsLoggedRow(s: Db, e: Event, t: nat, k: Key)
    requires Chained(s, k) && Enabled(s, e) && t in s.txns && s.txns[t].phase.InLog? && e != CommitTxn(t)
    ensures t in Apply(s, e).txns && Apply(s, e).txns[t] == s.txns[t]
    ensures Owns(s, t, k) ==> Get(Apply(s, e).rows, k) == Get(s.rows, k)
  {
    hide OpsOn, React, CommitAll, UndoAll, CommitRows, RollbackRows;
    if Owns(s, t, k) {
      OneOwner(s, t, k);
      match e
      case Invoke(u, j, call) =>
        InvokeOnRow(s, u, j, call, t, k);
        if j == k {
          CallOnOthersRow(u, Get(s.rows, k), call);
        }
      case CommitTxn(u) =>
        CommitOnOneRow(s, u, k, t);
        assert !Owns(s, u, k);
        CommitNothing(Get(s.rows, k), s.txns[u].phase.lsn);
      case Abort(u) =>
        AbortKeepsChained(s, u, k);
        assert !Owns(s, u, k);
      case _ =>
    }
  }

  lemma EventKeepsTame(s: Db, e: Event)
    requires (forall k :: Chained(s, k)) && LoggedAreTame(s) && Enabled(s, e)
    requires e.Queue? ==> TameTxn(s, e.t)
    ensures LoggedAreTame(Apply(s, e))
  {
    hide OpsOn, React, CommitRows, RollbackRows, LogOps, Rebase, Tame;
    var s' := Apply(s, e);
    forall t, k | t in s'.txns && s'.txns[t].phase.InLog? && Owns(s', t, k)
      ensures Tame(Ops(s', t, k), Get(s'.rows, k))
    {
      if e == Queue(t) {
        assert Ops(s', t, k) == Ops(s, t, k);
        assert Owns(s, t, k);
      } else {
        assert t in s.txns && s.txns[t] == s'.txns[t];
        EventKeepsLoggedRow(s, e, t, k);
        assert Ops(s', t, k) == Ops(s, t, k);
        assert Owns(s, t, k) && TameTxn(s, t);
      }
    }
  }

  // ---- whole runs

  /** Every transaction of the run is tame when it is queued for the log. */
  ghost predicate TameRun(s: Db, es: seq<Event>)
    requires ValidRun(s, es)
    decreases |es|
  {
    es == [] || ((es[0].Queue? ==> TameTxn(s, es[0].t)) && TameRun(Apply(s, es[0]), es[1..]))
  }

  lemma {:induction false} RunKeepsChained(s: Db, es: seq<Event>)
    requires (forall k :: Chained(s, k)) && ValidRun(s, es)
    ensures forall k :: Chained(Exec(s, es), k)
    decreases |es|
  {
    hide Chained;
    if es != [] {
      forall k ensures Chained(Apply(s, es[0]), k) {
        EventKeepsChained(s, es[0], k);
      }
      RunKeepsChained(Apply(s, es[0]), es[1..]);
    }
  }

  lemma {:induction false} RunKeepsLog(s: Db, es: seq<Event>)
    requires (forall k :: Chained(s, k)) && (forall k :: LogAgrees(s, k)) && LoggedAreTame(s)
    requires ValidRun(s, es) && TameRun(s, es)
    ensures forall k :: Chained(Exec(s, es), k)
    ensures forall k :: LogAgrees(Exec(s, es), k)
    decreases |es|
  {
    hide Chained, LogAgrees, TameTxn;
    if es != [] {
      var s' := Apply(s, es[0]);
      forall k ensures Chained(s', k) {
        EventKeepsChained(s, es[0], k);
      }
      forall k ensures LogAgrees(s', k) {
        EventKeepsLog(s, es[0], k);
      }
      EventKeepsTame(s, es[0]);
      RunKeepsLog(s', es[1..]);
    }
  }

  /** No transaction is in the middle of anything. */
  ghost predicate Quiescent(s: Db)
  {
    forall t :: t in s.txns ==> s.txns[t].ops == []
  }

  /**
   Memory agrees with the log.  After any run whose logged transactions are tame, replaying the log
   in LSN order gives every row its committed value and LSN, with the logged transactions that are
   not applied yet counted in; and when no transaction has work in progress it is the map itself.
   */
  lemma MemoryAgreesWithLog(es: seq<Event>)
    requires ValidRun(Empty, es) && TameRun(Empty, es)
    ensures forall k :: Get(ReplayLog(Exec(Empty, es).log), k) == Durable(Exec(Empty, es), k)
    ensures Quiescent(Exec(Empty, es)) ==> ReplayLog(Exec(Empty, es).log) == Exec(Empty, es).rows
  {
    var s := Exec(Empty, es);
    RunKeepsLog(Empty, es);
    forall k ensures Get(ReplayLog(s.log), k) == Durable(s, k) {
      assert LogAgrees(s, k);
    }
    if Quiescent(s) {
      forall k ensures Get(ReplayLog(s.log), k) == Get(s.rows, k) {
        assert Chained(s, k) && LogAgrees(s, k);
      }
      SameRows(ReplayLog(s.log), s.rows);
    }
  }

  /** LSNs are handed out in log order, from 1 and without gaps. */
  lemma {:induction false} LogIsNumbered(s: Db, es: seq<Event>)
    requires ValidRun(s, es) && forall i :: 0 <= i < |s.log| ==> s.log[i].lsn == i + 1
    ensures s.log <= Exec(s, es).log
    ensures forall i :: 0 <= i < |Exec(s, es).log| ==> Exec(s, es).log[i].lsn == i + 1
    decreases |es|
  {
    if es != [] {
      LogIsNumbered(Apply(s, es[0]), es[1..]);
    }
  }

  /** The row as it was just before transaction `t` first recorded an operation on it. */
  function RowBefore(s: Db, es: seq<Event>, t: nat, k: Key): Option<Row>
    requires ValidRun(s, es)
    decreases |es|
  {
    if es == [] || (t in Apply(s, es[0]).txns && OpsOn(Apply(s, es[0]).txns[t].ops, k) != []) then Get(s.rows, k)
    else RowBefore(Apply(s, es[0]), es[1..], t, k)
  }

  ghost predicate NeverEnds(es: seq<Event>, t: nat)
  {
    forall i :: 0 <= i < |es| ==> es[i] != CommitTxn(t) && es[i] != Abort(t) && es[i] != CommitEmpty(t)
  }

  /** While a transaction has operations on a row, nobody changes what is committed there. */
  lemma OwnedBaseStays(s: Db, e: Event, t: nat, k: Key)
    requires Chained(s, k) && Enabled(s, e) && Owns(s, t, k) && e != CommitTxn(t) && e != Abort(t) && e != CommitEmpty(t)
    ensures Get(Apply(s, e).base, k) == Get(s.base, k) && Owns(Apply(s, e), t, k)
  {
    hide OpsOn, React, CommitAll, CommitRows, Rebase;
    OneOwner(s, t, k);
    match e
    case Invoke(u, j, call) => InvokeOnRow(s, u, j, call, t, k);
    case CommitTxn(u) =>
      CommitOnOneRow(s, u, k, t);
      assert !Owns(s, u, k);
    case _ =>
      assert Ops(Apply(s, e), t, k) == Ops(s, t, k);
  }

  /** A first operation on a row finds the committed row there. */
  lemma FirstTouch(s: Db, e: Event, t: nat, k: Key)
    requires Chained(s, k) && Enabled(s, e) && !Owns(s, t, k) && Owns(Apply(s, e), t, k)
    ensures Get(s.rows, k) == Get(s.base, k) == Get(Apply(s, e).base, k)
  {
    hide OpsOn, React, CommitAll, CommitRows, Rebase, Chain;
    match e
    case Invoke(u, j, call) =>
      InvokeOnRow(s, u, j, call, t, k);
      if !Unlocked(Get(s.rows, k)) {
        if s.rows[k].txnId != u {
          CallOnOthersRow(u, Get(s.rows, k), call);
        }
      }
    case CommitTxn(u) => CommitOnOneRow(s, u, k, t);
    case Abort(u) => AbortOnOneRow(s, u, k, t);
    case Begin(u) => NoOps(k);
    case _ =>
  }

  lemma NoOps(k: Key)
    ensures OpsOn([], k) == []
  {
  }

  lemma {:induction false} BaseIsRowBefore(s: Db, es: seq<Event>, t: nat, k: Key)
    requires Chained(s, k) && ValidRun(s, es) && NeverEnds(es, t)
    requires Owns(Exec(s, es), t, k)
    ensures Owns(s, t, k) ==> Get(Exec(s, es).base, k) == Get(s.base, k)
    ensures !Owns(s, t, k) ==> Get(Exec(s, es).base, k) == RowBefore(s, es, t, k)
    decreases |es|
  {
    hide OpsOn;
    if es != [] {
      var e, s' := es[0], Apply(s, es[0]);
      EventKeepsChained(s, e, k);
      assert forall i :: 0 <= i < |es[1..]| ==> es[1..][i] == es[i + 1];
      BaseIsRowBefore(s', es[1..], t, k);
      if Owns(s, t, k) {
        OwnedBaseStays(s, e, t, k);
      } else if Owns(s', t, k) {
        FirstTouch(s, e, t, k);
      }
    }
  }

  /**
   Rollback is an exact inverse.  Let a transaction that has no operations in `s` run, interleaved
   with any others, through `es` and then roll back: every row it recorded an operation on is the
   row it found there, value, op code and id, and every other row is left alone.
   */
  lemma RollbackRestores(before: seq<Event>, es: seq<Event>, t: nat, k: Key)
    requires ValidRun(Empty, before) && ValidRun(Exec(Empty, before), es) && NeverEnds(es, t)
    requires !Owns(Exec(Empty, before), t, k)
    requires Enabled(Exec(Exec(Empty, before), es), Abort(t))
    ensures var s := Exec(Empty, before); var f := Exec(s, es);
      Get(Apply(f, Abort(t)).rows, k)
      == if Owns(f, t, k) then RowBefore(s, es, t, k) else Get(f.rows, k)
  {
    RunKeepsChained(Empty, before);
    var s := Exec(Empty, before);
    RunKeepsChained(s, es);
    var f := Exec(s, es);
    AbortKeepsChained(f, t, k);
    if Owns(f, t, k) {
      BaseIsRowBefore(s, es, t, k);
    }
  }

  /**
   Lock ids and LSNs are counted separately from 1.  Transaction 2 commits a row with LSN 1; then the
   lock call of transaction 1 is reported done, leaves the row as it is, and an update by transaction 3
   succeeds.
   */
  lemma LockNotHeld(k: Key, v: Value, w: Value)
    ensures
      var es := [Begin(1), Begin(2), Invoke(2, k, Insert(v)), Queue(2), CommitTxn(2), Begin(3)];
      && ValidRun(Empty, es)
      && var s := Exec(Empty, es);
         && Active(s, 1) && Active(s, 3) && Get(s.rows, k) == Some(Row(v, NoOp, 1))
         && React(1, Get(s.rows, k), Lock) == Refuse(Get(s.rows, k), Done)
         && React(3, React(1, Get(s.rows, k), Lock).row, Update(w)).outcome == Done
         && React(3, React(1, Get(s.rows, k), Lock).row, Update(w)).row == Some(Row(v, UpdateOp, 3))
  {
    var es := [Begin(1), Begin(2), Invoke(2, k, Insert(v)), Queue(2), CommitTxn(2), Begin(3)];
    var s3 := InsertedByTwo(k, v);
    var s5 := CommittedByTwo(k, v);
    LockSkips(v, w);
    hide LogOps, CommitRows, Rebase, RollbackRows, React, Put;
    SixSteps(es, s3, s5);
  }

  lemma LockSkips(v: Value, w: Value)
    ensures var r := Some(Row(v, NoOp, 1));
      && React(1, r, Lock) == Refuse(r, Done)
      && React(3, r, Update(w)).outcome == Done && React(3, r, Update(w)).row == Some(Row(v, UpdateOp, 3))
  {
  }

  /** Transactions 1 and 2 run, and 2 has inserted the row. */
  function InsertedByTwo(k: Key, v: Value): (s: Db)
    ensures s == Apply(Apply(Apply(Empty, Begin(1)), Begin(2)), Invoke(2, k, Insert(v)))
  {
    var none: seq<Change> := [];
    assert none + [Change(k, Inserted)] == [Change(k, Inserted)];
    Db(map[k := Row(v, InsertOp, 2)],
       map[1 := Txn([], map[], Working), 2 := Txn([Change(k, Inserted)], map[], Working)], [], map[])
  }

  /** Then 2 is logged with LSN 1 and committed. */
  function CommittedByTwo(k: Key, v: Value): (s: Db)
    ensures Enabled(InsertedByTwo(k, v), Queue(2))
    ensures Enabled(Apply(InsertedByTwo(k, v), Queue(2)), CommitTxn(2))
    ensures s == Apply(Apply(InsertedByTwo(k, v), Queue(2)), CommitTxn(2))
    ensures s == Db(map[k := Row(v, NoOp, 1)], map[1 := Txn([], map[], Working)], [LogTxn(1, [Rec(k, PutNew(v))])],
                    map[k := Row(v, NoOp, 1)])
  {
    InsertLogged(Change(k, Inserted), map[k := Row(v, InsertOp, 2)], v);
    InsertCommitted(k, v, 2, 1);
    hide LogOps, CommitRows, Rebase;
    Apply(Apply(InsertedByTwo(k, v), Queue(2)), CommitTxn(2))
  }

  lemma InsertLogged(c: Change, rows: map<Key, Row>, v: Value)
    requires c.kind.Inserted? && c.key in rows && rows[c.key].value == v
    ensures LogOps([c], rows) == [Rec(c.key, PutNew(v))]
  {
    assert LogOps([], rows) == [];
  }

  lemma InsertCommitted(k: Key, v: Value, t: nat, lsn: nat)
    ensures var rows, after := map[k := Row(v, InsertOp, t)], map[k := Row(v, NoOp, lsn)];
      && CommitRows(rows, [Change(k, Inserted)], lsn) == after && Rebase(map[], after, [Change(k, Inserted)]) == after
  {
    var rows, after := map[k := Row(v, InsertOp, t)], map[k := Row(v, NoOp, lsn)];
    var c := Change(k, Inserted);
    assert [c][..0] == [];
    assert CommitRows(rows, [], lsn) == rows && Rebase(map[], after, []) == map[];
    assert Put(rows, k, Commit(Inserted, Get(rows, k), lsn)) == after && Put(map[], k, Get(after, k)) == after;
  }

  lemma SixSteps(es: seq<Event>, s3: Db, s5: Db)
    requires |es| == 6 && Enabled(Empty, es[0]) && Enabled(Apply(Empty, es[0]), es[1])
    requires Enabled(Apply(Apply(Empty, es[0]), es[1]), es[2])
    requires s3 == Apply(Apply(Apply(Empty, es[0]), es[1]), es[2])
    requires Enabled(s3, es[3]) && Enabled(Apply(s3, es[3]), es[4]) && s5 == Apply(Apply(s3, es[3]), es[4])
    requires Enabled(s5, es[5])
    ensures ValidRun(Empty, es) && Exec(Empty, es) == Apply(s5, es[5])
  {
    hide Apply, Enabled;
    var none: seq<Event> := [];
    assert ValidRun(Empty, none) && Exec(Empty, none) == Empty;
    RunThen(Empty, none, es[0]);
    assert none + [es[0]] == es[..1];
    RunThen(Empty, es[..1], es[1]);
    assert es[..1] + [es[1]] == es[..2];
    RunThen(Empty, es[..2], es[2]);
    assert es[..2] + [es[2]] == es[..3];
    RunThen(Empty, es[..3], es[3]);
    assert es[..3] + [es[3]] == es[..4];
    RunThen(Empty, es[..4], es[4]);
    assert es[..4] + [es[4]] == es[..5];
    RunThen(Empty, es[..5], es[5]);
    assert es[..5] + [es[5]] == es;
  }

  /** One more event at the end of a run. */
  lemma {:induction false} RunThen(s: Db, es: seq<Event>, e: Event)
    requires ValidRun(s, es) && Enabled(Exec(s, es), e)
    ensures ValidRun(s, es + [e]) && Exec(s, es + [e]) == Apply(Exec(s, es), e)
    decreases |es|
  {
    hide Apply, Enabled;
    if es == [] {
      assert (es + [e])[0] == e && (es + [e])[1..] == [];
    } else {
      assert (es + [e])[0] == es[0] && (es + [e])[1..] == es[1..] + [e];
      RunThen(Apply(s, es[0]), es[1..], e);
    }
  }
}
