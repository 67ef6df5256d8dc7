/**
 Checkpoints of a running database: the rows are captured one by one while transactions go on, and
 recovery brings them back exactly if no transaction was written but not yet applied at the start.
 */
module CheckpointRuns {
  import opened Ordered
  import opened Rows
  import opened RowCommit
  import opened TransMap
  import opened Transactions
  import opened Durability
  import Scan

  // ---- a row whose transaction is in the log but not applied

  /** The record `lsn` of the log is the last one that touches the row. */
  ghost predicate UntouchedFrom(log: seq<LogTxn>, lsn: nat, k: Key)
  {
    forall i :: lsn <= i < |log| ==> EntriesOn(log[i].recs, k) == []
  }

  /** A logged owner's row is committed as it was just before its record, and untouched since. */
  ghost predicate OwnerLogged(s: Db, k: Key)
  {
    forall t :: t in s.txns && s.txns[t].phase.InLog? && Owns(s, t, k) ==>
      var lsn := s.txns[t].phase.lsn;
      && 1 <= lsn <= |s.log|
      && Get(ReplayLog(s.log[..lsn - 1]), k) == Get(s.base, k)
      && UntouchedFrom(s.log, lsn, k)
  }

  lemma QueueKeepsOwnerLogged(s: Db, u: nat, k: Key)
    requires Chained(s, k) && LogAgrees(s, k) && OwnerLogged(s, k) && Enabled(s, Queue(u))
    ensures OwnerLogged(Apply(s, Queue(u)), k)
  {
    hide OpsOn, Chain, ReplayLog, ReplayAll, LogAll;
    var s' := Apply(s, Queue(u));
    LogOnRow(s.txns[u].ops, s.rows, k);
    assert forall t :: Ops(s', t, k) == Ops(s, t, k);
    forall t | t in s'.txns && s'.txns[t].phase.InLog? && Owns(s', t, k)
      ensures var lsn := s'.txns[t].phase.lsn;
        && 1 <= lsn <= |s'.log| && Get(ReplayLog(s'.log[..lsn - 1]), k) == Get(s'.base, k)
        && UntouchedFrom(s'.log, lsn, k)
    {
      OneOwner(s, t, k);
      if t == u {
        assert s'.log[..|s.log|] == s.log;
      } else {
        var lsn := s.txns[t].phase.lsn;
        assert s'.log[..lsn - 1] == s.log[..lsn - 1];
        assert Ops(s, u, k) == [] by {
          assert !Owns(s, u, k);
        }
        NothingOwned(Get(s.rows, k));
      }
    }
  }

  lemma NothingOwned(r: Option<Row>)
    ensures LogAll([], r) == []
  {
  }

  lemma EventKeepsOwnerLogged(s: Db, e: Event, k: Key)
    requires Chained(s, k) && LogAgrees(s, k) && OwnerLogged(s, k) && Enabled(s, e)
    ensures OwnerLogged(Apply(s, e), k)
  {
    hide OpsOn, Chain, ReplayLog, React, CommitRows, RollbackRows, LogOps, Rebase, UntouchedFrom, LogAgrees, Chained;
    if e.Queue? {
      QueueKeepsOwnerLogged(s, e.t, k);
    } else {
      var s' := Apply(s, e);
      forall t | t in s'.txns && s'.txns[t].phase.InLog? && Owns(s', t, k)
        ensures var lsn := s'.txns[t].phase.lsn;
          && 1 <= lsn <= |s'.log| && Get(ReplayLog(s'.log[..lsn - 1]), k) == Get(s'.base, k)
          && UntouchedFrom(s'.log, lsn, k)
      {
        assert t in s.txns && s.txns[t] == s'.txns[t] && Ops(s', t, k) == Ops(s, t, k);
        OwnedBaseStays(s, e, t, k);
      }
    }
  }

  lemma {:induction false} RunKeepsOwnerLogged(s: Db, es: seq<Event>, k: Key)
    requires (forall j :: Chained(s, j)) && (forall j :: LogAgrees(s, j)) && LoggedAreTame(s) && OwnerLogged(s, k)
    requires ValidRun(s, es) && TameRun(s, es)
    ensures Chained(Exec(s, es), k) && LogAgrees(Exec(s, es), k) && OwnerLogged(Exec(s, es), k)
    decreases |es|
  {
    hide Chained, LogAgrees, TameTxn, OwnerLogged;
    if es != [] {
      var s' := Apply(s, es[0]);
      forall j ensures Chained(s', j) && LogAgrees(s', j) {
        EventKeepsChained(s, es[0], j);
        EventKeepsLog(s, es[0], j);
      }
      EventKeepsTame(s, es[0]);
      EventKeepsOwnerLogged(s, es[0], k);
      RunKeepsOwnerLogged(s', es[1..], k);
    }
  }

  // ---- what the log says of the row

  /** The row's lock holder is in the log at or before `lsn`, with a change that is not applied yet. */
  predicate Unapplied(s: Db, k: Key, lsn: nat)
  {
    && k in s.rows && s.rows[k].op in {InsertOp, UpdateOp, DeleteOp}
    && s.rows[k].txnId in s.txns && s.txns[s.rows[k].txnId].phase.InLog?
    && s.txns[s.rows[k].txnId].phase.lsn <= lsn
  }

  lemma {:induction false} UntouchedReplay(log: seq<LogTxn>, m: nat, n: nat, k: Key)
    requires m <= n <= |log| && UntouchedFrom(log, m, k)
    ensures Get(ReplayLog(log[..n]), k) == Get(ReplayLog(log[..m]), k)
    decreases n
  {
    if m < n {
      var last := log[n - 1];
      assert log[..n][..n - 1] == log[..n - 1];
      UntouchedReplay(log, m, n - 1, k);
      ReplayOnRow(ReplayLog(log[..n - 1]), last.recs, last.lsn, k);
    }
  }

  lemma {:induction false} StampAfter(es: seq<Entry>, r: Option<Row>, lsn: nat)
    requires r.Some? ==> r.value.txnId <= lsn
    ensures ReplayAll(es, r, lsn).Some? ==> ReplayAll(es, r, lsn).value.txnId <= lsn
    decreases |es|
  {
    if es != [] {
      StampAfter(es[1..], Replay(es[0], r, lsn), lsn);
    }
  }

  /** Replayed rows carry LSNs of the log. */
  lemma {:induction false} StampsOfLog(log: seq<LogTxn>, k: Key)
    requires forall i :: 0 <= i < |log| ==> log[i].lsn == i + 1
    ensures Get(ReplayLog(log), k).Some? ==> Get(ReplayLog(log), k).value.txnId <= |log|
    decreases |log|
  {
    if log != [] {
      var front, last := log[..|log| - 1], log[|log| - 1];
      StampsOfLog(front, k);
      ReplayOnRow(ReplayLog(front), last.recs, last.lsn, k);
      StampAfter(EntriesOn(last.recs, k), Get(ReplayLog(front), k), last.lsn);
    }
  }

  /** A chain that ends in an update, an erase or a lock began with a row. */
  lemma {:induction false} RowWasThere(t: nat, b: Option<Row>, kinds: seq<Kind>, r: Option<Row>)
    requires Chain(t, b, kinds, r) && kinds != []
    requires var last := kinds[|kinds| - 1]; last.Updated? || last.Deleted? || last.Locked?
    ensures b.Some?
    decreases |kinds|
  {
    var front, last := kinds[..|kinds| - 1], kinds[|kinds| - 1];
    if front != [] {
      RowWasThere(t, b, front, Undo(last, r));
    }
  }

  /** What a chain logs changes the committed row exactly when it ends in an insert, update or erase. */
  lemma NetEffect(t: nat, b: Option<Row>, kinds: seq<Kind>, r: Option<Row>, lsn: nat)
    requires Chain(t, b, kinds, r) && kinds != [] && (b.Some? ==> b.value.txnId < lsn)
    ensures ReplayAll(LogAll(kinds, r), b, lsn) != b <==> r.value.op in {InsertOp, UpdateOp, DeleteOp}
  {
    var last := kinds[|kinds| - 1];
    ReplayLast(kinds, r, b, lsn);
    ShortChain(t, b, kinds, r);
    if last.Inserted? {
      assert kinds[1..] == [] && LogAll(kinds, r) == [PutNew(r.value.value)];
      assert [PutNew(r.value.value)][1..] == [];
    } else if last.Locked? {
      assert kinds == [last] && kinds[1..] == [];
      assert LogAll(kinds, r) == LogAll(kinds[1..], r) == [];
    } else if last.Deleted? {
      RowWasThere(t, b, kinds, r);
    }
  }

  lemma OwnerFacts(s: Db, k: Key)
    requires Chained(s, k) && LogAgrees(s, k) && OwnerLogged(s, k)
    requires forall i :: 0 <= i < |s.log| ==> s.log[i].lsn == i + 1
    requires k in s.rows && s.rows[k].op != NoOp && s.rows[k].txnId in s.txns && s.txns[s.rows[k].txnId].phase.InLog?
    ensures var lsn := s.txns[s.rows[k].txnId].phase.lsn;
      && 1 <= lsn <= |s.log| && UntouchedFrom(s.log, lsn, k)
      && Get(ReplayLog(s.log[..lsn - 1]), k) == Get(s.base, k)
      && (Get(ReplayLog(s.log), k) != Get(s.base, k) <==> s.rows[k].op in {InsertOp, UpdateOp, DeleteOp})
  {
    hide OpsOn, Chain, ReplayLog, ReplayAll, LogAll;
    var t := s.rows[k].txnId;
    var lsn := s.txns[t].phase.lsn;
    assert Owns(s, t, k);
    assert Chain(t, Get(s.base, k), Ops(s, t, k), Get(s.rows, k));
    StampsOfLog(s.log[..lsn - 1], k);
    NetEffect(t, Get(s.base, k), Ops(s, t, k), Get(s.rows, k), lsn);
  }

  lemma NoOwnerFacts(s: Db, k: Key)
    requires Chained(s, k) && LogAgrees(s, k)
    requires !(k in s.rows && s.rows[k].op != NoOp && s.rows[k].txnId in s.txns && s.txns[s.rows[k].txnId].phase.InLog?)
    ensures Get(ReplayLog(s.log), k) == Get(s.base, k)
  {
    hide OpsOn, Chain, ReplayLog, ReplayAll, LogAll;
  }

  /** The facts about one row that every reachable state has. */
  ghost predicate Reachable(s: Db, k: Key)
  {
    && Chained(s, k) && LogAgrees(s, k) && OwnerLogged(s, k)
    && forall i :: 0 <= i < |s.log| ==> s.log[i].lsn == i + 1
  }

  lemma RunIsReachable(es: seq<Event>, k: Key)
    requires ValidRun(Empty, es) && TameRun(Empty, es)
    ensures Reachable(Exec(Empty, es), k)
  {
    RunKeepsOwnerLogged(Empty, es, k);
    LogIsNumbered(Empty, es);
  }

  lemma CommittedSince(s: Db, k: Key, start: nat)
    requires Reachable(s, k) && start <= |s.log|
    ensures (exists n :: start <= n <= |s.log| && Get(s.base, k) == Get(ReplayLog(s.log[..n]), k)) <==> !Unapplied(s, k, start)
  {
    hide Chained, LogAgrees, OwnerLogged, ReplayLog, UntouchedFrom;
    assert s.log[..|s.log|] == s.log;
    if k in s.rows && s.rows[k].op != NoOp && s.rows[k].txnId in s.txns && s.txns[s.rows[k].txnId].phase.InLog? {
      var lsn := s.txns[s.rows[k].txnId].phase.lsn;
      OwnerFacts(s, k);
      if Unapplied(s, k, start) {
        forall n | start <= n <= |s.log| ensures Get(s.base, k) != Get(ReplayLog(s.log[..n]), k) {
          UntouchedReplay(s.log, lsn, n, k);
          UntouchedReplay(s.log, lsn, |s.log|, k);
        }
      } else if start < lsn {
        assert start <= lsn - 1 <= |s.log| && Get(s.base, k) == Get(ReplayLog(s.log[..lsn - 1]), k);
      } else {
        assert Get(s.base, k) == Get(ReplayLog(s.log[..|s.log|]), k);
      }
    } else {
      NoOwnerFacts(s, k);
      assert Get(s.base, k) == Get(ReplayLog(s.log[..|s.log|]), k);
    }
  }

  /**
   What a checkpoint may rely on, in every reachable state: the committed row is the row of the log at
   some point from `start` on, if and only if the row's lock holder is not in the log at or before
   `start` with a change still to be applied.
   */
  lemma CommittedIsInLog(es: seq<Event>, k: Key, start: nat)
    requires ValidRun(Empty, es) && TameRun(Empty, es) && start <= |Exec(Empty, es).log|
    ensures var s := Exec(Empty, es);
      (exists n :: start <= n <= |s.log| && Get(s.base, k) == Get(ReplayLog(s.log[..n]), k)) <==> !Unapplied(s, k, start)
  {
    hide Reachable, Unapplied;
    RunIsReachable(es, k);
    CommittedSince(Exec(Empty, es), k, start);
  }

  // ---- recovery of a row captured now

  lemma LiftedAt(log: seq<LogTxn>, c: nat, n: nat, k: Key)
    requires n <= |log|
    ensures Recovery.At(Recovery.CommittedAt(Lift(log, c), n), Recovery.Place(c, k)) == Get(ReplayLog(log[..n]), k)
  {
    hide LiftTxn, ReplayLog;
    assert Lift(log, c)[..n] == Lift(log[..n], c);
    Recovery.RecoverLogAt(map[], Lift(log, c)[..n], Recovery.Place(c, k));
    LiftedLog(log[..n], c, Recovery.Place(c, k));
  }

  lemma {:induction false} UntouchedRecovery(log: seq<LogTxn>, m: nat, c: nat, k: Key, r: Option<Row>)
    requires m <= |log| && UntouchedFrom(log, m, k)
    ensures Recovery.RowAfterLog(Lift(log, c)[m..], Recovery.Place(c, k), r) == r
    decreases |log| - m
  {
    hide LiftRecs;
    if m < |log| {
      var rest := Lift(log, c)[m..];
      assert rest[0] == LiftTxn(log[m], c) && rest[1..] == Lift(log, c)[m + 1..];
      LiftedOps(log[m].recs, c, Recovery.Place(c, k), r, log[m].lsn);
      UntouchedRecovery(log, m + 1, c, k, r);
    }
  }

  /**
   A row captured as it is committed now is recovered, by replay after `start`, if and only if its lock
   holder is not in the log at or before `start` with a change still to be applied.  If it is, replay
   leaves the captured row as it is.
   */
  lemma CapturedRowRecovers(es: seq<Event>, k: Key, start: nat, c: nat, ckpt: Recovery.Contents)
    requires ValidRun(Empty, es) && TameRun(Empty, es) && start <= |Exec(Empty, es).log|
    requires Recovery.At(ckpt, Recovery.Place(c, k)) == Get(Exec(Empty, es).base, k)
    ensures var s := Exec(Empty, es);
      var r := Recovery.At(Recovery.RecoverLog(ckpt, Lift(s.log, c)[start..]), Recovery.Place(c, k));
      && (r == Get(ReplayLog(s.log), k) <==> !Unapplied(s, k, start))
      && (Unapplied(s, k, start) ==> r == Get(s.base, k))
  {
    hide Reachable, Unapplied, Recovery.ValidHistory, Recovery.RecoverLog, ReplayLog, Lift;
    var s := Exec(Empty, es);
    RunIsReachable(es, k);
    CommittedSince(s, k, start);
    RunIsHistory(es, c);
    var log, p := Lift(s.log, c), Recovery.Place(c, k);
    assert s.log[..|s.log|] == s.log && log[start..|log|] == log[start..];
    LiftedAt(s.log, c, |s.log|, k);
    if Unapplied(s, k, start) {
      UnappliedStays(s, k, start, c, ckpt);
    } else {
      var n :| start <= n <= |s.log| && Get(s.base, k) == Get(ReplayLog(s.log[..n]), k);
      LiftedAt(s.log, c, n, k);
      Recovery.ConvergeRow(ckpt, log, p, start, n, |log|);
    }
  }

  lemma UnappliedStays(s: Db, k: Key, start: nat, c: nat, ckpt: Recovery.Contents)
    requires Reachable(s, k) && start <= |s.log| && Unapplied(s, k, start)
    ensures Recovery.At(Recovery.RecoverLog(ckpt, Lift(s.log, c)[start..]), Recovery.Place(c, k))
            == Recovery.At(ckpt, Recovery.Place(c, k))
    ensures Get(ReplayLog(s.log), k) != Get(s.base, k)
  {
    hide Chained, LogAgrees, OwnerLogged, ReplayLog, Recovery.RecoverLog, Lift;
    OwnerFacts(s, k);
    Recovery.RecoverLogAt(ckpt, Lift(s.log, c)[start..], Recovery.Place(c, k));
    UntouchedRecovery(s.log, start, c, k, Recovery.At(ckpt, Recovery.Place(c, k)));
  }

  // ---- the states of one run

  lemma {:induction false} RunSplits(s: Db, es: seq<Event>, i: nat)
    requires ValidRun(s, es) && i <= |es|
    ensures ValidRun(s, es[..i]) && ValidRun(Exec(s, es[..i]), es[i..])
    ensures Exec(Exec(s, es[..i]), es[i..]) == Exec(s, es)
    ensures TameRun(s, es) ==> TameRun(s, es[..i]) && TameRun(Exec(s, es[..i]), es[i..])
    decreases i
  {
    hide Apply, Enabled, TameTxn;
    if i == 0 {
      assert es[..0] == [] && es[0..] == es;
    } else {
      assert es[..i][0] == es[0] && es[..i][1..] == es[1..][..i - 1] && es[1..][i - 1..] == es[i..];
      RunSplits(Apply(s, es[0]), es[1..], i - 1);
    }
  }

  ghost function StateAt(es: seq<Event>, i: nat): Db
    requires ValidRun(Empty, es) && i <= |es|
  {
    RunSplits(Empty, es, i);
    Exec(Empty, es[..i])
  }

  /** Later states of a run follow from earlier ones, and their logs are longer. */
  lemma StatesFollow(es: seq<Event>, i: nat, j: nat)
    requires ValidRun(Empty, es) && TameRun(Empty, es) && i <= j <= |es|
    ensures ValidRun(Empty, es[..i]) && TameRun(Empty, es[..i])
    ensures ValidRun(Empty, es[..j]) && TameRun(Empty, es[..j])
    ensures ValidRun(StateAt(es, i), es[i..j]) && Exec(StateAt(es, i), es[i..j]) == StateAt(es, j)
    ensures TameRun(StateAt(es, i), es[i..j])
    ensures StateAt(es, i).log <= StateAt(es, j).log
  {
    hide Apply, Enabled, TameTxn;
    RunSplits(Empty, es, j);
    RunSplits(Empty, es[..j], i);
    assert es[..j][..i] == es[..i] && es[..j][i..] == es[i..j];
    LogIsNumbered(Empty, es[..i]);
    LogIsNumbered(StateAt(es, i), es[i..j]);
  }

  /** A transaction that is in the log at or before an LSN of the past has been there since. */
  lemma StaysApplied(s: Db, e: Event, k: Key, start: nat)
    requires Enabled(s, e) && Chained(s, k) && Chained(Apply(s, e), k) && start <= |s.log|
    requires !Unapplied(s, k, start)
    ensures !Unapplied(Apply(s, e), k, start)
  {
    hide OpsOn, Chain, React, CommitRows, RollbackRows, LogOps, Rebase;
    var s' := Apply(s, e);
    if k in s'.rows && s'.rows[k].op in {InsertOp, UpdateOp, DeleteOp} {
      var t := s'.rows[k].txnId;
      assert Owns(s', t, k);
      if t in s'.txns && s'.txns[t].phase.InLog? && e != Queue(t) {
        assert t in s.txns && s.txns[t] == s'.txns[t] && Ops(s', t, k) == Ops(s, t, k);
        EventKeepsLoggedRow(s, e, t, k);
      }
    }
  }

  lemma {:induction false} RunStaysApplied(s: Db, es: seq<Event>, k: Key, start: nat)
    requires Chained(s, k) && ValidRun(s, es) && start <= |s.log| && !Unapplied(s, k, start)
    ensures !Unapplied(Exec(s, es), k, start)
    decreases |es|
  {
    hide Chained, Unapplied;
    if es != [] {
      EventKeepsChained(s, es[0], k);
      StaysApplied(s, es[0], k, start);
      assert s.log <= Apply(s, es[0]).log;
      RunStaysApplied(Apply(s, es[0]), es[1..], k, start);
    }
  }

  /** Every row committed between two points of the run is in the log of the run, from `start` on. */
  lemma CommittedDuring(es: seq<Event>, from: nat, i: nat, to: nat, k: Key, start: nat) returns (n: nat)
    requires ValidRun(Empty, es) && TameRun(Empty, es) && from <= i <= to <= |es|
    requires start <= |StateAt(es, from).log| && !Unapplied(StateAt(es, from), k, start)
    ensures start <= n <= |StateAt(es, to).log| <= |Exec(Empty, es).log|
    ensures Get(StateAt(es, i).base, k) == Get(ReplayLog(Exec(Empty, es).log[..n]), k)
  {
    hide Unapplied, ReplayLog, ValidRun, Exec, TameRun, Chained;
    StatesFollow(es, from, i);
    StatesFollow(es, i, to);
    StatesFollow(es, to, |es|);
    assert es[..|es|] == es;
    RunIsReachable(es[..from], k);
    RunStaysApplied(StateAt(es, from), es[from..i], k, start);
    CommittedIsInLog(es[..i], k, start);
    n :| start <= n <= |StateAt(es, i).log| && Get(StateAt(es, i).base, k) == Get(ReplayLog(StateAt(es, i).log[..n]), k);
    assert Exec(Empty, es).log[..n] == StateAt(es, i).log[..n];
  }

  // ---- a whole checkpoint

  /** The checkpoint holds each row of container `c` as it was committed at some point from `from` to `to`. */
  ghost predicate TakenDuring(es: seq<Event>, from: nat, to: nat, c: nat, ckpt: Recovery.Contents)
    requires ValidRun(Empty, es) && from <= to <= |es|
  {
    forall p: Recovery.Place ::
      if p.container == c then exists i :: from <= i <= to && Recovery.At(ckpt, p) == Get(StateAt(es, i).base, p.key)
      else Recovery.At(ckpt, p) == None
  }

  /**
   A fuzzy checkpoint of a run.  If at its start no row has a lock holder in the log at or before
   `start` with a change still to be applied, then every row, captured at whatever point of the
   checkpoint, is the committed row at some LSN from `start` to the end of the checkpoint.
   */
  lemma CheckpointIsCaptured(es: seq<Event>, from: nat, to: nat, start: nat, c: nat, ckpt: Recovery.Contents)
    requires ValidRun(Empty, es) && TameRun(Empty, es) && from <= to <= |es|
    requires start <= |StateAt(es, from).log| && forall k :: !Unapplied(StateAt(es, from), k, start)
    requires TakenDuring(es, from, to, c, ckpt)
    ensures start <= |StateAt(es, to).log| <= |Exec(Empty, es).log|
    ensures forall p :: Recovery.CapturedBetween(ckpt, Lift(Exec(Empty, es).log, c), p, start, |StateAt(es, to).log|)
  {
    hide Unapplied, ReplayLog, ValidRun, Exec, TameRun, StateAt, Recovery.CommittedAt;
    StatesFollow(es, from, to);
    StatesFollow(es, to, |es|);
    assert es[..|es|] == es;
    var last := CommittedDuring(es, from, from, to, 0, start);
    var log := Lift(Exec(Empty, es).log, c);
    forall p: Recovery.Place ensures Recovery.CapturedBetween(ckpt, log, p, start, |StateAt(es, to).log|) {
      if p.container == c {
        var i :| from <= i <= to && Recovery.At(ckpt, p) == Get(StateAt(es, i).base, p.key);
        var n := CommittedDuring(es, from, i, to, p.key, start);
        LiftedAt(Exec(Empty, es).log, c, n, p.key);
        assert p == Recovery.Place(c, p.key);
        assert Recovery.At(ckpt, p) == Recovery.At(Recovery.CommittedAt(log, n), p);
      } else {
        OtherContainer(Exec(Empty, es).log, c, start, p);
        assert Recovery.At(ckpt, p) == Recovery.At(Recovery.CommittedAt(log, start), p);
      }
    }
  }

  lemma OtherContainer(log: seq<LogTxn>, c: nat, n: nat, p: Recovery.Place)
    requires n <= |log| && p.container != c
    ensures Recovery.At(Recovery.CommittedAt(Lift(log, c), n), p) == None
  {
    hide LiftTxn, ReplayLog;
    assert Lift(log, c)[..n] == Lift(log[..n], c);
    Recovery.RecoverLogAt(map[], Lift(log, c)[..n], p);
    LiftedLog(log[..n], c, p);
  }

  /**
   Durability of a checkpointed run, values and LSN stamps: such a checkpoint and the log from either
   side of `start` give the memory of the run back once nothing is in progress.
   */
  lemma CheckpointedRunRecovers(es: seq<Event>, from: nat, to: nat, start: nat, c: nat, ckpt: Recovery.Contents, first: nat, k: Key)
    requires ValidRun(Empty, es) && TameRun(Empty, es) && Quiescent(Exec(Empty, es)) && from <= to <= |es|
    requires first <= start <= |StateAt(es, from).log| && forall j :: !Unapplied(StateAt(es, from), j, start)
    requires TakenDuring(es, from, to, c, ckpt)
    ensures |StateAt(es, from).log| <= |Exec(Empty, es).log|
    ensures Recovery.At(Recovery.RecoverLog(ckpt, Lift(Exec(Empty, es).log, c)[first..]), Recovery.Place(c, k))
            == Get(Exec(Empty, es).rows, k)
  {
    hide Unapplied, ReplayLog, ValidRun, Exec, TameRun, StateAt, TakenDuring, Recovery.RecoverLog, Recovery.CapturedBetween;
    StatesFollow(es, from, to);
    CheckpointIsCaptured(es, from, to, start, c, ckpt);
    RecoveryRestoresMemory(es, c, ckpt, start, |StateAt(es, to).log|, first, k);
  }

  // ---- what the checkpoint writes for a row

  /**
   The entry of `save_checkpoint`: a pending insert has none, and a row in progress is written with its
   stored value and a made-up LSN.
   */
  function Saved(rows: map<Key, Row>, k: Key, madeUp: nat): Option<Row>
  {
    if k !in rows || rows[k].op in {InsertOp, DeletedInsertOp} then None
    else if rows[k].op == NoOp then Some(rows[k])
    else Some(Row(rows[k].value, NoOp, madeUp))
  }

  /** What is written is the committed row, but for the LSN of a row in progress. */
  lemma SavedIsCommitted(s: Db, k: Key, madeUp: nat)
    requires Chained(s, k)
    ensures Recovery.SameValue(Saved(s.rows, k, madeUp), Get(s.base, k))
    ensures k in s.rows && s.rows[k].op == NoOp ==> Saved(s.rows, k, madeUp) == Get(s.base, k)
  {
    hide OpsOn;
    if k in s.rows && s.rows[k].op != NoOp {
      var t := s.rows[k].txnId;
      assert Owns(s, t, k);
      if s.rows[k].op in {LockOp, UpdateOp, DeleteOp} {
        Scan.ChainKeepsValue(t, Get(s.base, k), Ops(s, t, k), Get(s.rows, k));
      } else {
        ShortChain(t, Get(s.base, k), Ops(s, t, k), Get(s.rows, k));
      }
    }
  }

  /** The same for the entries the checkpoint really writes: every row gets its value back. */
  lemma SavedRowRecovers(es: seq<Event>, from: nat, i: nat, start: nat, c: nat, ckpt: Recovery.Contents, madeUp: nat, first: nat, k: Key)
    requires ValidRun(Empty, es) && TameRun(Empty, es) && Quiescent(Exec(Empty, es)) && from <= i <= |es|
    requires first <= start <= |StateAt(es, from).log| && !Unapplied(StateAt(es, from), k, start)
    requires Recovery.At(ckpt, Recovery.Place(c, k)) == Saved(StateAt(es, i).rows, k, madeUp)
    ensures |StateAt(es, from).log| <= |Exec(Empty, es).log|
    ensures Recovery.SameValue(
      Recovery.At(Recovery.RecoverLog(ckpt, Lift(Exec(Empty, es).log, c)[first..]), Recovery.Place(c, k)),
      Get(Exec(Empty, es).rows, k))
  {
    hide Unapplied, ReplayLog, ValidRun, Exec, TameRun, Saved, Recovery.RecoverLog, Recovery.ValidHistory, Recovery.CommittedAt;
    var f := Exec(Empty, es);
    var log := Lift(f.log, c);
    StatesFollow(es, from, i);
    StatesFollow(es, i, |es|);
    assert es[..|es|] == es;
    var n := CommittedDuring(es, from, i, |es|, k, start);
    RunIsReachable(es[..i], k);
    SavedIsCommitted(StateAt(es, i), k, madeUp);
    LiftedAt(f.log, c, n, k);
    LiftedAt(f.log, c, |f.log|, k);
    RunIsHistory(es, c);
    Recovery.ValuesConverge(ckpt, log, Recovery.Place(c, k), first, n, |log|);
    assert log[first..|log|] == log[first..] && f.log[..|f.log|] == f.log;
    MemoryAgreesWithLog(es);
  }
}
