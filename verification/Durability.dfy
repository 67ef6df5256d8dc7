/**
 From running transactions to recovery: the log that any run writes is a history recovery can replay
 over a fuzzy checkpoint, and the result is the memory of the run.
 */
module Durability {
  import opened Ordered
  import opened Rows
  import opened TransMap
  import opened Transactions
  import Recovery

  // ---- inserts are logged only for rows that are not there

  ghost predicate EntriesNew(es: seq<Entry>, r: Option<Row>, lsn: nat)
    decreases |es|
  {
    es == [] || ((es[0].PutNew? ==> r == None) && EntriesNew(es[1..], Replay(es[0], r, lsn), lsn))
  }

  /** Only the first operation of a chain can be an insert, and then the row was not there. */
  lemma {:induction false} InsertComesFirst(t: nat, b: Option<Row>, kinds: seq<Kind>, r: Option<Row>)
    requires Chain(t, b, kinds, r)
    ensures forall i :: 0 <= i < |kinds| && kinds[i].Inserted? ==> i == 0 && b == None
    decreases |kinds|
  {
    if kinds != [] {
      var front, last := kinds[..|kinds| - 1], kinds[|kinds| - 1];
      InsertComesFirst(t, b, front, Undo(last, r));
      forall i | 0 <= i < |kinds| && kinds[i].Inserted? ensures i == 0 && b == None {
        assert i < |front| ==> front[i] == kinds[i];
      }
    }
  }

  lemma {:induction false} NoInsertsLater(kinds: seq<Kind>, f: Option<Row>, r: Option<Row>, lsn: nat)
    requires forall i :: 0 <= i < |kinds| ==> !kinds[i].Inserted?
    ensures EntriesNew(LogAll(kinds, f), r, lsn)
    decreases |kinds|
  {
    if kinds != [] {
      var first := Logged(kinds[0], f);
      if first.Some? {
        NoInsertsLater(kinds[1..], f, Replay(first.value, r, lsn), lsn);
        assert LogAll(kinds, f)[1..] == LogAll(kinds[1..], f);
      } else {
        NoInsertsLater(kinds[1..], f, r, lsn);
      }
    }
  }

  lemma ChainEntriesNew(t: nat, b: Option<Row>, kinds: seq<Kind>, r: Option<Row>, lsn: nat)
    requires Chain(t, b, kinds, r)
    ensures EntriesNew(LogAll(kinds, r), b, lsn)
  {
    InsertComesFirst(t, b, kinds, r);
    if kinds != [] {
      var first := Logged(kinds[0], r);
      if first.Some? {
        NoInsertsLater(kinds[1..], r, Replay(first.value, b, lsn), lsn);
        assert LogAll(kinds, r)[1..] == LogAll(kinds[1..], r);
      } else {
        NoInsertsLater(kinds[1..], r, b, lsn);
      }
    }
  }

  // ---- the log of one container, as recovery reads it

  function LiftRecs(recs: seq<Rec>, c: nat): (ops: seq<Recovery.Operation>)
    ensures |ops| == |recs|
  {
    if recs == [] then []
    else [Recovery.OnRow(Recovery.Place(c, recs[0].key), recs[0].entry)] + LiftRecs(recs[1..], c)
  }

  function LiftTxn(x: LogTxn, c: nat): Recovery.LoggedTxn
  {
    Recovery.LoggedTxn(x.lsn, LiftRecs(x.recs, c))
  }

  function Lift(log: seq<LogTxn>, c: nat): (txns: seq<Recovery.LoggedTxn>)
    ensures |txns| == |log|
    ensures forall i :: 0 <= i < |log| ==> txns[i] == LiftTxn(log[i], c)
  {
    seq(|log|, i requires 0 <= i < |log| => LiftTxn(log[i], c))
  }

  lemma {:induction false} LiftedOps(recs: seq<Rec>, c: nat, p: Recovery.Place, r: Option<Row>, lsn: nat)
    ensures Recovery.RowAfterOps(LiftRecs(recs, c), p, r, lsn)
            == if p.container == c then ReplayAll(EntriesOn(recs, p.key), r, lsn) else r
    ensures Recovery.InsertsAreNew(LiftRecs(recs, c), p, r, lsn)
            <==> (p.container == c ==> EntriesNew(EntriesOn(recs, p.key), r, lsn))
    decreases |recs|
  {
    if recs != [] {
      var ops := LiftRecs(recs, c);
      assert ops[1..] == LiftRecs(recs[1..], c);
      LiftedOps(recs[1..], c, p, Recovery.RecoverRow(ops[0], p, r, lsn), lsn);
      if p.container == c && recs[0].key == p.key {
        assert EntriesOn(recs, p.key)[1..] == EntriesOn(recs[1..], p.key);
      }
    }
  }

  lemma {:induction false} NewInsertsConcat(a: seq<Recovery.LoggedTxn>, b: seq<Recovery.LoggedTxn>, p: Recovery.Place, r: Option<Row>)
    requires Recovery.LogInsertsAreNew(a, p, r) && Recovery.LogInsertsAreNew(b, p, Recovery.RowAfterLog(a, p, r))
    ensures Recovery.LogInsertsAreNew(a + b, p, r)
    decreases |a|
  {
    if a == [] {
      assert a + b == b;
    } else {
      assert (a + b)[0] == a[0] && (a + b)[1..] == a[1..] + b;
      NewInsertsConcat(a[1..], b, p, Recovery.RowAfterOps(a[0].operations, p, r, a[0].lsn));
    }
  }

  lemma OneTxn(x: Recovery.LoggedTxn, p: Recovery.Place, r: Option<Row>)
    ensures Recovery.RowAfterLog([x], p, r) == Recovery.RowAfterOps(x.operations, p, r, x.lsn)
    ensures Recovery.LogInsertsAreNew([x], p, r) <==> Recovery.InsertsAreNew(x.operations, p, r, x.lsn)
  {
    assert [x][1..] == [];
    assert Recovery.RowAfterLog([], p, Recovery.RowAfterOps(x.operations, p, r, x.lsn))
        == Recovery.RowAfterOps(x.operations, p, r, x.lsn);
  }

  /** Replaying the lifted log gives each row what replaying the log gives it. */
  lemma {:induction false} LiftedLog(log: seq<LogTxn>, c: nat, p: Recovery.Place)
    ensures Recovery.RowAfterLog(Lift(log, c), p, None)
            == if p.container == c then Get(ReplayLog(log), p.key) else None
    decreases |log|
  {
    hide LiftTxn, ReplayRecs, ReplayAll;
    if log != [] {
      var front, last := log[..|log| - 1], log[|log| - 1];
      LiftedLog(front, c, p);
      assert Lift(log, c) == Lift(front, c) + [LiftTxn(last, c)];
      LiftStep(front, last, c, p);
    }
  }

  lemma LiftStep(front: seq<LogTxn>, last: LogTxn, c: nat, p: Recovery.Place)
    requires Recovery.RowAfterLog(Lift(front, c), p, None) == if p.container == c then Get(ReplayLog(front), p.key) else None
    ensures Recovery.RowAfterLog(Lift(front, c) + [LiftTxn(last, c)], p, None)
            == if p.container == c then Get(ReplayRecs(ReplayLog(front), last.recs, last.lsn), p.key) else None
  {
    var r := Recovery.RowAfterLog(Lift(front, c), p, None);
    Recovery.RowAfterConcat(Lift(front, c), [LiftTxn(last, c)], p, None);
    OneTxn(LiftTxn(last, c), p, r);
    LiftedOps(last.recs, c, p, r, last.lsn);
    ReplayOnRow(ReplayLog(front), last.recs, last.lsn, p.key);
  }

  // ---- over whole runs

  ghost predicate InsertsLoggedNew(s: Db, c: nat)
  {
    forall p :: Recovery.LogInsertsAreNew(Lift(s.log, c), p, None)
  }

  /** A transaction about to be logged would insert only rows that the log does not have. */
  lemma QueueLogsNew(s: Db, t: nat, c: nat, p: Recovery.Place)
    requires Chained(s, p.key) && LogAgrees(s, p.key) && Enabled(s, Queue(t))
    requires Recovery.LogInsertsAreNew(Lift(s.log, c), p, None)
    ensures Recovery.LogInsertsAreNew(Lift(Apply(s, Queue(t)).log, c), p, None)
  {
    hide Chain, ReplayAll, LogAll, OpsOn, LiftTxn, ReplayLog;
    var k, lsn := p.key, |s.log| + 1;
    var last := LogTxn(lsn, LogOps(s.txns[t].ops, s.rows));
    assert Lift(s.log + [last], c) == Lift(s.log, c) + [LiftTxn(last, c)];
    LiftedLog(s.log, c, p);
    var r := Recovery.RowAfterLog(Lift(s.log, c), p, None);
    QueueEntries(s, t, c, p, last, r);
    NewInsertsConcat(Lift(s.log, c), [LiftTxn(last, c)], p, None);
  }

  lemma QueueEntries(s: Db, t: nat, c: nat, p: Recovery.Place, last: LogTxn, r: Option<Row>)
    requires Chained(s, p.key) && LogAgrees(s, p.key) && Enabled(s, Queue(t))
    requires last == LogTxn(|s.log| + 1, LogOps(s.txns[t].ops, s.rows))
    requires r == if p.container == c then Get(ReplayLog(s.log), p.key) else None
    ensures Recovery.LogInsertsAreNew([LiftTxn(last, c)], p, r)
  {
    hide Chain, ReplayAll, LogAll, OpsOn, ReplayLog;
    var k := p.key;
    OneTxn(LiftTxn(last, c), p, r);
    LiftedOps(last.recs, c, p, r, last.lsn);
    if p.container == c {
      LogOnRow(s.txns[t].ops, s.rows, k);
      if Owns(s, t, k) {
        OneOwner(s, t, k);
        ChainEntriesNew(t, Get(s.base, k), Ops(s, t, k), Get(s.rows, k), last.lsn);
      } else {
        NothingLogged(Get(s.rows, k), r, last.lsn);
      }
    }
  }

  lemma NothingLogged(f: Option<Row>, r: Option<Row>, lsn: nat)
    ensures EntriesNew(LogAll([], f), r, lsn)
  {
  }

  lemma {:induction false} RunLogsNew(s: Db, es: seq<Event>, c: nat)
    requires (forall k :: Chained(s, k)) && (forall k :: LogAgrees(s, k)) && LoggedAreTame(s) && InsertsLoggedNew(s, c)
    requires ValidRun(s, es) && TameRun(s, es)
    ensures InsertsLoggedNew(Exec(s, es), c)
    decreases |es|
  {
    hide Chained, LogAgrees, TameTxn, Lift;
    if es != [] {
      var s' := Apply(s, es[0]);
      forall k ensures Chained(s', k) && LogAgrees(s', k) {
        EventKeepsChained(s, es[0], k);
        EventKeepsLog(s, es[0], k);
      }
      EventKeepsTame(s, es[0]);
      EventLogsNew(s, es[0], c);
      RunLogsNew(s', es[1..], c);
    }
  }

  lemma EventLogsNew(s: Db, e: Event, c: nat)
    requires (forall k :: Chained(s, k)) && (forall k :: LogAgrees(s, k)) && InsertsLoggedNew(s, c) && Enabled(s, e)
    ensures InsertsLoggedNew(Apply(s, e), c)
  {
    hide Chained, LogAgrees, Lift;
    if e.Queue? {
      forall p: Recovery.Place ensures Recovery.LogInsertsAreNew(Lift(Apply(s, e).log, c), p, None) {
        QueueLogsNew(s, e.t, c, p);
      }
    } else {
      assert Apply(s, e).log == s.log;
    }
  }

  /** The log of any run is a history for recovery: numbered, and inserting only new rows. */
  lemma RunIsHistory(es: seq<Event>, c: nat)
    requires ValidRun(Empty, es) && TameRun(Empty, es)
    ensures Recovery.ValidHistory(Lift(Exec(Empty, es).log, c))
  {
    hide Lift;
    assert Lift(Empty.log, c) == [];
    RunLogsNew(Empty, es, c);
    LogIsNumbered(Empty, es);
  }

  /**
   Durability.  After any run of transactions, and with nothing in progress, recovery from a fuzzy
   checkpoint and the log gives the memory of the run back, row by row, with its LSN stamps.
   */
  lemma RecoveryRestoresMemory(es: seq<Event>, c: nat, ckpt: Recovery.Contents, lsnAtStart: nat, lsnAtEnd: nat, first: nat, k: Key)
    requires ValidRun(Empty, es) && TameRun(Empty, es) && Quiescent(Exec(Empty, es))
    requires first <= lsnAtStart <= lsnAtEnd <= |Exec(Empty, es).log|
    requires forall p :: Recovery.CapturedBetween(ckpt, Lift(Exec(Empty, es).log, c), p, lsnAtStart, lsnAtEnd)
    ensures var s := Exec(Empty, es);
      Recovery.At(Recovery.RecoverLog(ckpt, Lift(s.log, c)[first..]), Recovery.Place(c, k)) == Get(s.rows, k)
  {
    hide Recovery.ValidHistory, Recovery.CapturedBetween, Recovery.RowAfterLog, Lift, ReplayLog, Quiescent;
    var s := Exec(Empty, es);
    var log := Lift(s.log, c);
    RunIsHistory(es, c);
    Recovery.RecoveryConverges(ckpt, log, lsnAtStart, lsnAtEnd, |log|, first);
    assert log[first..|log|] == log[first..] && log[..|log|] == log;
    Recovery.RecoverLogAt(map[], log, Recovery.Place(c, k));
    LiftedLog(s.log, c, Recovery.Place(c, k));
    MemoryAgreesWithLog(es);
  }

  /**
   A checkpoint notes the last LSN written as its start, but transactions with lower LSNs may be
   logged and not applied yet.  Two such transactions are enough: recovery begins with the second
   one and never sees the first.
   */
  lemma WrittenButNotApplied(v: Value)
    ensures
      var es := [Begin(1), Invoke(1, 10, Insert(v)), Begin(2), Invoke(2, 20, Insert(v)), Event.Queue(1), Event.Queue(2)];
      && ValidRun(Empty, es)
      && var s := Exec(Empty, es);
         && s.log == [LogTxn(1, [Rec(10, PutNew(v))]), LogTxn(2, [Rec(20, PutNew(v))])]
         && s.base == map[]
         && var log := Lift(s.log, 0);
            && Recovery.At(Recovery.CommittedAt(log, 2), Recovery.Place(0, 10)) == Some(Row(v, NoOp, 1))
            && Recovery.At(Recovery.RecoverLog(map[], log[1..]), Recovery.Place(0, 10)) == None
  {
    var es := [Begin(1), Invoke(1, 10, Insert(v)), Begin(2), Invoke(2, 20, Insert(v)), Event.Queue(1), Event.Queue(2)];
    var s3, s4 := FirstThree(v), FirstFour(v);
    var s5, s6 := FirstFive(v), BothLogged(v);
    hide LogOps, CommitRows, Rebase, RollbackRows, React, Put;
    SixSteps(es, s3, s5);
    LostRow(s6.log, v);
  }

  function FirstThree(v: Value): (s: Db)
    ensures s == Apply(Apply(Apply(Empty, Begin(1)), Invoke(1, 10, Insert(v))), Begin(2))
  {
    var none: seq<Change> := [];
    assert none + [Change(10, Inserted)] == [Change(10, Inserted)];
    Db(map[10 := Row(v, InsertOp, 1)],
       map[1 := Txn([Change(10, Inserted)], map[], Working), 2 := Txn([], map[], Working)], [], map[])
  }

  /** Both transactions have inserted a row. */
  function FirstFour(v: Value): (s: Db)
    ensures s == Apply(FirstThree(v), Invoke(2, 20, Insert(v)))
  {
    var none: seq<Change> := [];
    assert none + [Change(20, Inserted)] == [Change(20, Inserted)];
    Db(map[10 := Row(v, InsertOp, 1), 20 := Row(v, InsertOp, 2)],
       map[1 := Txn([Change(10, Inserted)], map[], Working), 2 := Txn([Change(20, Inserted)], map[], Working)], [], map[])
  }

  function FirstFive(v: Value): (s: Db)
    ensures Enabled(FirstFour(v), Event.Queue(1)) && s == Apply(FirstFour(v), Event.Queue(1))
    ensures s == FirstFour(v).(log := [LogTxn(1, [Rec(10, PutNew(v))])],
                               txns := FirstFour(v).txns[1 := Txn([Change(10, Inserted)], map[], InLog(1))])
  {
    InsertLogged(Change(10, Inserted), FirstFour(v).rows, v);
    hide LogOps;
    Apply(FirstFour(v), Event.Queue(1))
  }

  /** Both are in the log, and neither is applied. */
  function BothLogged(v: Value): (s: Db)
    ensures Enabled(FirstFive(v), Event.Queue(2)) && s == Apply(FirstFive(v), Event.Queue(2))
    ensures s.log == [LogTxn(1, [Rec(10, PutNew(v))]), LogTxn(2, [Rec(20, PutNew(v))])] && s.base == map[]
  {
    InsertLogged(Change(20, Inserted), FirstFive(v).rows, v);
    hide LogOps;
    Apply(FirstFive(v), Event.Queue(2))
  }

  lemma LostRow(txns: seq<LogTxn>, v: Value)
    requires txns == [LogTxn(1, [Rec(10, PutNew(v))]), LogTxn(2, [Rec(20, PutNew(v))])]
    ensures var log := Lift(txns, 0);
      && Recovery.At(Recovery.CommittedAt(log, 2), Recovery.Place(0, 10)) == Some(Row(v, NoOp, 1))
      && Recovery.At(Recovery.RecoverLog(map[], log[1..]), Recovery.Place(0, 10)) == None
  {
    var log, p := Lift(txns, 0), Recovery.Place(0, 10);
    var a, b := log[0], log[1];
    assert log[..2] == [a] + [b] && log[1..] == [b];
    Recovery.RecoverLogAt(map[], log[..2], p);
    Recovery.RecoverLogAt(map[], log[1..], p);
    Recovery.RowAfterConcat([a], [b], p, None);
    OneTxn(a, p, None);
    OneTxn(b, p, None);
    OneTxn(b, p, Some(Row(v, NoOp, 1)));
    OneRec(10, v, p, None, 1);
    OneRec(20, v, p, None, 2);
    OneRec(20, v, p, Some(Row(v, NoOp, 1)), 2);
  }

  lemma OneRec(k: Key, v: Value, p: Recovery.Place, r: Option<Row>, lsn: nat)
    ensures Recovery.RowAfterOps(LiftRecs([Rec(k, PutNew(v))], 0), p, r, lsn)
            == if p == Recovery.Place(0, k) then Replay(PutNew(v), r, lsn) else r
  {
    var op := Recovery.OnRow(Recovery.Place(0, k), PutNew(v));
    assert LiftRecs([Rec(k, PutNew(v))], 0) == [op] + LiftRecs([], 0);
    assert [op][1..] == [];
    assert Recovery.RowAfterOps([], p, Recovery.RecoverRow(op, p, r, lsn), lsn) == Recovery.RecoverRow(op, p, r, lsn);
  }
}
