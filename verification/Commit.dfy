/** `commit` and `rollback` of a transaction on one map: log first, apply afterwards. */
module TransactionCommit {
  import opened Ordered
  import opened TransMap
  import opened Transactions

  datatype Result = Committed(lsn: nat) | NothingToDo | Rejected

  class Database {
    const container: TransactionalMap
    var log: seq<LogTxn>
    ghost var model: Db

    ghost predicate Valid()
      reads this, container
    {
      model.rows == container.rows && model.log == log
    }

    /** The transaction is known to the protocol with just its operations and pending values. */
    ghost predicate Runs(trans: Transaction)
      reads this, trans
    {
      trans.transId in model.txns
      && model.txns[trans.transId] == Txn(trans.outstandingChanges, trans.pendingChanges, Working)
    }

    constructor (container: TransactionalMap)
      requires container.rows == map[]
      ensures Valid() && this.container == container && model == Empty && log == []
    {
      this.container, log, model := container, [], Empty;
    }

    /** `queue_for_commit` and `log`: buffers without operations are refused. */
    method QueueAndLog(recs: seq<Rec>, count: nat) returns (lsn: Option<nat>)
      modifies this`log
      ensures lsn.None? <==> count == 0
      ensures lsn.None? ==> log == old(log)
      ensures lsn.Some? ==> lsn.value == |old(log)| + 1 && log == old(log) + [LogTxn(lsn.value, recs)]
    {
      if count == 0 {
        return None;
      }
      lsn := Some(|log| + 1);
      log := log + [LogTxn(|log| + 1, recs)];
    }

    /**
     A transaction with operations is logged first and applied afterwards, with the LSN of its log
     record; one whose operations log nothing is refused and stays as it is, rows locked.
     */
    method Commit(trans: Transaction) returns (r: Result)
      requires Valid() && Runs(trans)
      modifies this, container, trans
      ensures Valid()
      ensures r.NothingToDo? <==> old(trans.outstandingChanges) == []
      ensures r.Rejected? <==>
        old(trans.outstandingChanges) != [] && LogOps(old(trans.outstandingChanges), old(container.rows)) == []
      ensures r.NothingToDo? ==>
        model == Apply(old(model), CommitEmpty(trans.transId)) && container.rows == old(container.rows) && log == old(log)
      ensures r.Rejected? ==>
        model == old(model) && container.rows == old(container.rows) && log == old(log) && Runs(trans)
      ensures r.Committed? ==>
        && ValidRun(old(model), [Queue(trans.transId), CommitTxn(trans.transId)])
        && model == Exec(old(model), [Queue(trans.transId), CommitTxn(trans.transId)])
        && r.lsn == |log| == |old(log)| + 1
        && trans.outstandingChanges == [] && trans.pendingChanges == map[]
    {
      hide LogOps, CommitRows;
      ghost var s, t := model, trans.transId;
      if |trans.outstandingChanges| == 0 {
        model := Apply(s, CommitEmpty(t));
        return NothingToDo;
      }
      var recs, count := container.AddToLog(trans);
      var lsn := QueueAndLog(recs, count);
      if lsn.None? {
        return Rejected;
      }
      TwoSteps(s, Queue(t), CommitTxn(t));
      container.CommitChanges(trans, lsn.value);
      trans.Clear();
      model := Apply(Apply(s, Queue(t)), CommitTxn(t));
      r := Committed(lsn.value);
    }

    method Rollback(trans: Transaction)
      requires Valid() && Runs(trans)
      modifies this`model, container, trans
      ensures Valid() && Enabled(old(model), Abort(trans.transId))
      ensures model == Apply(old(model), Abort(trans.transId))
      ensures trans.outstandingChanges == [] && trans.pendingChanges == map[]
    {
      container.RollbackChanges(trans);
      model := Apply(model, Abort(trans.transId));
      trans.Clear();
    }
  }

  lemma TwoSteps(s: Db, a: Event, b: Event)
    requires Enabled(s, a) && Enabled(Apply(s, a), b)
    ensures ValidRun(s, [a, b]) && Exec(s, [a, b]) == Apply(Apply(s, a), b)
  {
    hide Apply, Enabled;
    assert [a, b][1..] == [b] && [b][1..] == [];
    assert Exec(Apply(s, a), [b]) == Exec(Apply(Apply(s, a), b), []);
  }
}
