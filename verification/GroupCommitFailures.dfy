/**
 Group commit when a write may fail.  The exception leaves `log` with the batch already taken from the
 queue; this is about which buffers are lost by that, and who learns of it.
 */
module GroupCommitFailures {
  import opened Checksum
  import opened LogFormat
  import opened Os
  import opened Ordered
  import opened GroupCommit
  import opened GroupCommitInvariant

  /**
   The log, and as history the LSNs that were in a batch whose write failed and the threads that got
   the exception.
   */
  datatype Faulty = Faulty(log: Log, lost: set<nat>, gone: set<nat>)

  datatype Happening = Done(e: Event) | WriteFails(n: nat)

  function Lsns(batch: seq<Item>): set<nat>
  {
    set i | i in batch :: LsnOf(i)
  }

  function PaddedBytes(s: Log): seq<uint8>
    requires Enabled(s, Write)
  {
    Bytes(Padded(s.logLen, s.holder.value.batch.value))
  }

  /** The write stops after `n` bytes, nothing is noted of it, and the file mutex is given back. */
  function Broken(s: Log, n: nat): Log
    requires Enabled(s, Write) && n <= |PaddedBytes(s)|
  {
    s.(files := s.files[s.name.value := Overwrite(s.files[s.name.value], s.logLen, PaddedBytes(s)[..n])],
       holder := None)
  }

  predicate Possible(f: Faulty, h: Happening)
  {
    match h
    case Done(e) => Enabled(f.log, e) && (e.Enter? ==> e.thread !in f.gone)
    case WriteFails(n) => Enabled(f.log, Write) && n <= |PaddedBytes(f.log)|
  }

  function After(f: Faulty, h: Happening): Faulty
    requires Possible(f, h)
  {
    match h
    case Done(e) => f.(log := Apply(f.log, e))
    case WriteFails(n) =>
      Faulty(Broken(f.log, n), f.lost + Lsns(InFlight(f.log)), f.gone + {f.log.holder.value.thread})
  }

  predicate ValidRun(f: Faulty, hs: seq<Happening>)
    decreases |hs|
  {
    hs == [] || (Possible(f, hs[0]) && ValidRun(After(f, hs[0]), hs[1..]))
  }

  function Exec(f: Faulty, hs: seq<Happening>): Faulty
    requires ValidRun(f, hs)
    decreases |hs|
  {
    if hs == [] then f else Exec(After(f, hs[0]), hs[1..])
  }

  function Start(maxLen: nat, sync: bool): Faulty
  {
    Faulty(Initial(maxLen, sync), {}, {})
  }

  // ---- the invariant

  /** A write that did not fail has put this buffer into some file. */
  ghost predicate Placed(placed: seq<seq<Item>>, i: Item)
  {
    exists j :: 0 <= j < |placed| && i in Txns(placed[j])
  }

  /** How many buffers have left the queue and are not in flight. */
  function Passed(s: Log): int
  {
    |s.queued| - |s.waiting| - |InFlight(s)|
  }

  /** What is not in flight or waiting has been written or lost, one or the other. */
  ghost predicate Accounted(f: Faulty)
  {
    var s, at := f.log, Passed(f.log);
    && Numbered(s) && s.lastWrite <= at
    && InFlight(s) == s.queued[at..at + |InFlight(s)|] && s.waiting == s.queued[at + |InFlight(s)|..]
    && (forall l :: l in f.lost ==> 1 <= l <= at)
    && (forall l :: 1 <= l <= at ==> (Placed(s.placed, s.queued[l - 1]) <==> l !in f.lost))
    && forall i :: Placed(s.placed, i) ==> i in s.queued[..at]
  }

  ghost predicate Counted(s: Log)
  {
    && (forall t :: t in s.threads ==> 1 <= s.threads[t] <= |s.queued|)
    && (s.holder.Some? ==> s.holder.value.thread in s.threads
                           && s.threads[s.holder.value.thread] == s.holder.value.lsn)
    && (forall t :: t in s.returned ==> t in s.threads && s.threads[t] <= s.lastWrite)
  }

  lemma StartAccounted(maxLen: nat, sync: bool)
    ensures Accounted(Start(maxLen, sync)) && Counted(Start(maxLen, sync).log)
  {
  }

  // ---- the steps

  lemma PlacedMore(placed: seq<seq<Item>>, items: seq<Item>, i: Item)
    ensures Placed(Append(placed, items), i) <==> Placed(placed, i) || i in Txns(items)
  {
    hide Txns;
    var after, last := Append(placed, items), |placed| - 1;
    if placed == [] {
      assert after[0] == items;
    } else {
      TxnsConcat(placed[last], items);
      PlacedAtEnd(placed[..last], placed[last], i);
      PlacedAtEnd(placed[..last], placed[last] + items, i);
      assert placed == placed[..last] + [placed[last]];
      assert after == placed[..last] + [placed[last] + items];
    }
  }

  lemma PlacedAtEnd(placed: seq<seq<Item>>, items: seq<Item>, i: Item)
    ensures Placed(placed + [items], i) <==> Placed(placed, i) || i in Txns(items)
  {
    hide Txns;
    var after := placed + [items];
    assert after[|placed|] == items;
    assert forall j :: 0 <= j < |placed| ==> after[j] == placed[j];
    if Placed(placed, i) {
      var j :| 0 <= j < |placed| && i in Txns(placed[j]);
      assert i in Txns(after[j]);
    }
  }

  lemma OpeningPlaces(s: Log, p: nat, i: Item)
    ensures Placed(EnsureOpen(s, p).placed, i) <==> Placed(s.placed, i)
  {
    hide Placed, Opened;
    PlacedAtEnd(s.placed, [], i);
  }

  /** The batch in flight: the next LSNs, in order. */
  lemma BatchIsNext(f: Faulty)
    requires Accounted(f)
    ensures var s, at := f.log, Passed(f.log); var batch := InFlight(s);
      && AllTxns(batch) && 0 <= at && at + |batch| <= |s.queued|
      && (forall k :: 0 <= k < |batch| ==> batch[k] == s.queued[at + k] && LsnOf(batch[k]) == at + k + 1)
      && forall l :: l in Lsns(batch) <==> at < l <= at + |batch|
  {
    hide Placed, TxnItem;
    var s, at := f.log, Passed(f.log);
    var batch := InFlight(s);
    forall k | 0 <= k < |batch|
      ensures batch[k] == s.queued[at + k] && LsnOf(batch[k]) == at + k + 1 && TxnItem(batch[k])
    {
    }
    forall l: nat | at < l <= at + |batch| ensures l in Lsns(batch) {
      assert LsnOf(batch[l - at - 1]) == l;
    }
  }

  /** Placed buffers have low LSNs, so nothing in flight or waiting is placed. */
  lemma LaterNotPlaced(f: Faulty, l: nat)
    requires Accounted(f) && Passed(f.log) < l <= |f.log.queued|
    ensures !Placed(f.log.placed, f.log.queued[l - 1])
  {
    hide Placed, TxnItem;
    var s, at := f.log, Passed(f.log);
    forall k | 0 <= k < at ensures s.queued[..at][k] != s.queued[l - 1] {
      assert s.queued[k].header.lsn as int == k + 1 && s.queued[l - 1].header.lsn as int == l;
    }
  }

  lemma NotInFlight(f: Faulty, l: nat)
    requires Accounted(f) && 1 <= l <= Passed(f.log) <= |f.log.queued|
    ensures f.log.queued[l - 1] !in InFlight(f.log)
  {
    hide Placed, TxnItem;
    var s, at := f.log, Passed(f.log);
    var batch := InFlight(s);
    forall k | 0 <= k < |batch| ensures batch[k] != s.queued[l - 1] {
      assert batch[k] == s.queued[at + k];
      assert s.queued[at + k].header.lsn as int == at + k + 1 && s.queued[l - 1].header.lsn as int == l;
    }
  }

  lemma QueueAccounted(f: Faulty, e: Event)
    requires Accounted(f) && e.Queue? && Enabled(f.log, e)
    ensures Accounted(f.(log := Apply(f.log, e)))
  {
    hide Placed, HeaderSum, Adler32;
    var s, at := f.log, Passed(f.log);
    var s' := Apply(s, e);
    assert s'.queued[|s.queued|] == Sealed(e.opCount, e.data, s.nextLsn);
    assert s'.queued[..at] == s.queued[..at];
    assert s'.queued[at..at + |InFlight(s)|] == s.queued[at..at + |InFlight(s)|];
    assert s'.queued[at + |InFlight(s)|..] == s.queued[at + |InFlight(s)|..] + [s'.queued[|s.queued|]];
  }

  lemma FetchAccounted(f: Faulty)
    requires Accounted(f) && Enabled(f.log, Fetch)
    ensures Accounted(f.(log := Apply(f.log, Fetch)))
  {
    hide Placed, EnsureOpen, Batch, TxnItem;
    var s, at := f.log, Passed(f.log);
    var s' := Apply(s, Fetch);
    EnsureOpenFrame(s, s.holder.value.process);
    var batch := InFlight(s');
    assert batch <= s.waiting == s.queued[at..];
    assert s.queued[at..][..|batch|] == s.queued[at..at + |batch|];
    assert s.queued[at..][|batch|..] == s.queued[at + |batch|..];
    forall i ensures Placed(s'.placed, i) <==> Placed(s.placed, i) {
      OpeningPlaces(s, s.holder.value.process, i);
    }
  }

  /** A write that does not fail puts the batch, and nothing else, into a file. */
  lemma WritePlaces(f: Faulty, i: Item)
    requires Accounted(f) && Enabled(f.log, Write)
    ensures Placed(Apply(f.log, Write).placed, i) <==> Placed(f.log.placed, i) || i in InFlight(f.log)
  {
    hide Placed, Padded, Overwrite, Bytes, TxnItem, LsnOf, Append;
    BatchIsNext(f);
    PaddedBatch(f.log.logLen, InFlight(f.log));
    PlacedMore(f.log.placed, Padded(f.log.logLen, InFlight(f.log)), i);
  }

  lemma WriteFrame(f: Faulty)
    requires Accounted(f) && Enabled(f.log, Write)
    ensures var s, s' := f.log, Apply(f.log, Write);
      && s'.queued == s.queued && s'.waiting == s.waiting && s'.nextLsn == s.nextLsn && InFlight(s') == []
      && s.lastWrite <= s'.lastWrite <= Passed(s) + |InFlight(s)| == Passed(s')
  {
    hide Placed, Padded, Overwrite, Bytes, TxnItem, LsnOf, Append;
    BatchIsNext(f);
  }

  lemma WriteAccounted(f: Faulty)
    requires Accounted(f) && Enabled(f.log, Write)
    ensures Accounted(f.(log := Apply(f.log, Write)))
    ensures Apply(f.log, Write).lastWrite >= f.log.lastWrite
  {
    hide Placed, TxnItem, LsnOf, Lsns, Apply, Enabled;
    var s, at := f.log, Passed(f.log);
    var s', batch := Apply(s, Write), InFlight(s);
    BatchIsNext(f);
    WriteFrame(f);
    forall i ensures Placed(s'.placed, i) <==> Placed(s.placed, i) || i in batch {
      WritePlaces(f, i);
    }
    assert s.queued[..at + |batch|] == s.queued[..at] + batch;
    forall l | 1 <= l <= at + |batch| ensures Placed(s'.placed, s.queued[l - 1]) <==> l !in f.lost {
      if l > at {
        assert batch[l - 1 - at] == s.queued[l - 1];
      } else {
        NotInFlight(f, l);
      }
    }
  }

  lemma FailureAccounted(f: Faulty, n: nat)
    requires Accounted(f) && Possible(f, WriteFails(n))
    ensures Accounted(After(f, WriteFails(n)))
  {
    hide Placed, PaddedBytes, Overwrite, TxnItem, LsnOf, Lsns;
    var s, at := f.log, Passed(f.log);
    var batch := InFlight(s);
    BatchIsNext(f);
    forall k | at <= k < at + |batch| ensures !Placed(s.placed, s.queued[k]) {
      LaterNotPlaced(f, k + 1);
    }
    assert s.queued[..at] <= s.queued[..at + |batch|];
    var f' := After(f, WriteFails(n));
    assert Passed(f'.log) == at + |batch| && InFlight(f'.log) == [];
    assert s.queued[at + |batch|..at + |batch|] == [];
  }

  lemma StepKeeps(f: Faulty, h: Happening)
    requires Accounted(f) && Counted(f.log) && Possible(f, h)
    ensures Accounted(After(f, h)) && Counted(After(f, h).log)
  {
    hide Placed, EnsureOpen, Sealed, Batch, Overwrite, Padded, PaddedBytes, Numbered, LsnOf, Append, Lsns;
    match h
    case Done(e) =>
      match e {
        case Queue(_, _, _) => QueueAccounted(f, e); QueueLonger(f.log, e);
        case Fetch => FetchAccounted(f); EnsureOpenFrame(f.log, f.log.holder.value.process);
        case Write => WriteAccounted(f);
        case _ => QuietKeeps(f, e);
      }
    case WriteFails(n) => FailureAccounted(f, n);
  }

  /** Entering, leaving and rolling touch neither the queue nor any batch. */
  lemma QuietKeeps(f: Faulty, e: Event)
    requires Accounted(f) && Counted(f.log) && Enabled(f.log, e) && (e.Enter? || e.Leave? || e.Roll?)
    ensures Accounted(f.(log := Apply(f.log, e))) && Counted(Apply(f.log, e))
  {
    hide Placed, TxnItem;
    assert Passed(Apply(f.log, e)) == Passed(f.log) && InFlight(Apply(f.log, e)) == InFlight(f.log);
  }

  lemma QueueLonger(s: Log, e: Event)
    requires e.Queue? && Enabled(s, e) && Numbered(s)
    ensures s.nextLsn == |Apply(s, e).queued| == |s.queued| + 1
  {
    hide Sealed;
  }

  lemma {:induction false} RunKeeps(f: Faulty, hs: seq<Happening>)
    requires Accounted(f) && Counted(f.log) && ValidRun(f, hs)
    ensures Accounted(Exec(f, hs)) && Counted(Exec(f, hs).log)
    decreases |hs|
  {
    hide Accounted, Counted, Possible, After;
    if hs != [] {
      StepKeeps(f, hs[0]);
      RunKeeps(After(f, hs[0]), hs[1..]);
    }
  }

  // ---- what follows

  /**
   Durability, with failing writes.  In every run a thread that has returned from `log` has an LSN that
   counts as written; its buffer has been written, by a write that did not fail, if and only if it was
   in no batch whose write failed.
   */
  lemma ReturnedIsWritten(maxLen: nat, sync: bool, hs: seq<Happening>, t: nat)
    requires ValidRun(Start(maxLen, sync), hs) && t in Exec(Start(maxLen, sync), hs).log.returned
    ensures var f := Exec(Start(maxLen, sync), hs); var s := f.log;
      && t in s.threads && 1 <= s.threads[t] <= s.lastWrite <= |s.queued|
      && (Placed(s.placed, s.queued[s.threads[t] - 1]) <==> s.threads[t] !in f.lost)
  {
    hide Placed;
    StartAccounted(maxLen, sync);
    RunKeeps(Start(maxLen, sync), hs);
  }

  lemma {:induction false} LostStays(f: Faulty, hs: seq<Happening>)
    requires ValidRun(f, hs)
    ensures f.lost <= Exec(f, hs).lost && f.log.queued <= Exec(f, hs).log.queued
    decreases |hs|
  {
    hide Sealed, EnsureOpen, Padded, PaddedBytes, Overwrite, Lsns;
    if hs != [] {
      if hs[0].Done? && hs[0].e.Fetch? {
        EnsureOpenFrame(f.log, f.log.holder.value.process);
      }
      LostStays(After(f, hs[0]), hs[1..]);
    }
  }

  /** Nothing tries again: a buffer in flight at a failed write is not written by anything that follows. */
  lemma FailedBatchIsLost(maxLen: nat, sync: bool, before: seq<Happening>, n: nat, after: seq<Happening>, i: Item)
    requires ValidRun(Start(maxLen, sync), before) && Possible(Exec(Start(maxLen, sync), before), WriteFails(n))
    requires var f := Exec(Start(maxLen, sync), before);
      i in InFlight(f.log) && ValidRun(After(f, WriteFails(n)), after)
    ensures var f := Exec(Start(maxLen, sync), before);
      !Placed(Exec(After(f, WriteFails(n)), after).log.placed, i)
  {
    hide Accounted, Counted, Placed, Possible, ValidRun, Exec, After;
    StartAccounted(maxLen, sync);
    RunKeeps(Start(maxLen, sync), before);
    var f := Exec(Start(maxLen, sync), before);
    var g := After(f, WriteFails(n));
    StepKeeps(f, WriteFails(n));
    RunKeeps(g, after);
    LostStays(g, after);
    var l := BatchIsLost(f, n, i);
    LostNotPlaced(Exec(g, after), l);
  }

  lemma BatchIsLost(f: Faulty, n: nat, i: Item) returns (l: nat)
    requires Accounted(f) && Possible(f, WriteFails(n)) && i in InFlight(f.log)
    ensures var g := After(f, WriteFails(n));
      l in g.lost && 1 <= l <= |g.log.queued| && i == g.log.queued[l - 1]
  {
    hide Placed, PaddedBytes;
    BatchIsNext(f);
    var k :| 0 <= k < |InFlight(f.log)| && InFlight(f.log)[k] == i;
    l := Passed(f.log) + k + 1;
  }

  lemma LostNotPlaced(f: Faulty, l: nat)
    requires Accounted(f) && l in f.lost && 1 <= l <= |f.log.queued|
    ensures !Placed(f.log.placed, f.log.queued[l - 1])
  {
    hide Placed, Numbered;
  }

  /**
   A failed write harms nothing that was there: the counters and the queue are as before, and so are
   all other files and, in the current one, every byte before the end of its data.
   */
  lemma FailureHarmsNothing(f: Faulty, n: nat, name: nat, k: nat)
    requires Possible(f, WriteFails(n)) && name in f.log.files && k < |f.log.files[name]|
    requires f.log.name == Some(name) ==> k < f.log.logLen
    ensures var s, s' := f.log, After(f, WriteFails(n)).log;
      && s'.lastWrite == s.lastWrite && s'.lastSync == s.lastSync && s'.logLen == s.logLen && s'.name == s.name
      && s'.waiting == s.waiting && s'.nextLsn == s.nextLsn && s'.holder.None? && s'.returned == s.returned
      && name in s'.files && k < |s'.files[name]| && s'.files[name][k] == s.files[name][k]
  {
    hide PaddedBytes, Lsns;
  }

  // ---- a run in which a thread returns and its buffer is lost

  /** One more happening at the end of a run. */
  lemma {:induction false} RunThen(f: Faulty, hs: seq<Happening>, h: Happening)
    requires ValidRun(f, hs) && Possible(Exec(f, hs), h)
    ensures ValidRun(f, hs + [h]) && Exec(f, hs + [h]) == After(Exec(f, hs), h)
    decreases |hs|
  {
    hide Possible, After;
    if hs == [] {
      assert (hs + [h])[0] == h && (hs + [h])[1..] == [];
    } else {
      assert (hs + [h])[0] == hs[0] && (hs + [h])[1..] == hs[1..] + [h];
      RunThen(After(f, hs[0]), hs[1..], h);
    }
  }

  lemma FirstOnly(waiting: seq<Item>)
    requires waiting != []
    ensures Batch(waiting, 0, 1, MAX_TXN_PER_WRITE) == [waiting[0]]
  {
  }

  /** Two buffers are queued, and the thread of the second one has taken the first. */
  lemma SecondTakesFirst(sync: bool, data: seq<uint8>) returns (hs: seq<Happening>)
    requires 0 < |data| < 0x1_0000_0000
    ensures ValidRun(Start(1, sync), hs)
    ensures var f := Exec(Start(1, sync), hs); var s := f.log; var i, j := Sealed(1, data, 1), Sealed(1, data, 2);
      && s.holder == Some(Holder(2, 0, 2, Some([i]))) && s.waiting == [j] && s.queued == [i, j]
      && s.threads == map[1 := 1, 2 := 2] && s.lastWrite == 0 && s.maxLen == 1 && s.logLen == 0
      && s.name == Some(0) && 0 in s.files && s.mine == map[0 := 0]
      && s.lastSync == 0 && s.sync == sync && s.returned == {} && f.lost == {} && f.gone == {}
  {
    hide Seal, Opened, Batch;
    var f0 := Start(1, sync);
    var i, j := Sealed(1, data, 1), Sealed(1, data, 2);
    var none: seq<Item> := [];
    assert none + [i] == [i] && [i] + [j] == [i, j] && [i, j][1..] == [j];
    hide Sealed;
    RunThen(f0, [], Done(Queue(1, 1, data)));
    hs := [] + [Done(Queue(1, 1, data))];
    RunThen(f0, hs, Done(Queue(2, 1, data)));
    hs := hs + [Done(Queue(2, 1, data))];
    RunThen(f0, hs, Done(Enter(2, 0)));
    hs := hs + [Done(Enter(2, 0))];
    FirstOnly([i, j]);
    RunThen(f0, hs, Done(Fetch));
    hs := hs + [Done(Fetch)];
  }

  /** Its write fails at once; the first thread enters and takes what is left in the queue. */
  lemma FirstTakesSecond(sync: bool, data: seq<uint8>) returns (hs: seq<Happening>)
    requires 0 < |data| < 0x1_0000_0000
    ensures ValidRun(Start(1, sync), hs)
    ensures var f := Exec(Start(1, sync), hs); var s := f.log; var i, j := Sealed(1, data, 1), Sealed(1, data, 2);
      && s.holder == Some(Holder(1, 0, 1, Some([j]))) && s.queued == [i, j] && s.threads == map[1 := 1, 2 := 2]
      && s.lastWrite == 0 && s.lastSync == 0 && s.sync == sync && s.logLen == 0 && s.name == Some(0) && 0 in s.files
      && f.lost == {1}
  {
    hide Sealed, Opened, Batch, Overwrite, PaddedBytes, ValidRun, Exec;
    var f0 := Start(1, sync);
    var i, j := Sealed(1, data, 1), Sealed(1, data, 2);
    hs := SecondTakesFirst(sync, data);
    SealedLsn(data, 1);
    RunThen(f0, hs, WriteFails(0));
    hs := hs + [WriteFails(0)];
    assert Lsns([i]) == {1};
    RunThen(f0, hs, Done(Enter(1, 0)));
    hs := hs + [Done(Enter(1, 0))];
    FirstOnly([j]);
    RunThen(f0, hs, Done(Fetch));
    hs := hs + [Done(Fetch)];
  }

  lemma SealedLsn(data: seq<uint8>, lsn: nat)
    requires 0 < |data| < 0x1_0000_0000 && lsn < 0x8000_0000_0000_0000
    ensures LsnOf(Sealed(1, data, lsn)) == lsn
  {
    hide Seal, Adler32;
  }

  /**
   One failed write and two threads are enough to break the promise that a thread that has returned
   from `log` finds its buffer in the log: one thread takes the other's buffer and fails to write it, and
   the other one then writes what is left in the queue.  That raises the last LSN written above its own,
   and it returns.
   */
  lemma ReturnedAndLost(sync: bool, data: seq<uint8>) returns (hs: seq<Happening>)
    requires 0 < |data| < 0x1_0000_0000
    ensures ValidRun(Start(1, sync), hs)
    ensures var s := Exec(Start(1, sync), hs).log;
      && 1 in s.returned && 1 in s.threads && |s.queued| > 0 && s.threads[1] == 1 <= s.lastWrite && (sync ==> s.lastSync >= 1)
      && s.queued[0] == Sealed(1, data, 1) && !Placed(s.placed, s.queued[0])
  {
    hide Sealed, Padded, Overwrite, PaddedBytes, ValidRun, Exec, Placed;
    var f0 := Start(1, sync);
    hs := FirstTakesSecond(sync, data);
    SealedLsn(data, 2);
    RunThen(f0, hs, Done(Write));
    hs := hs + [Done(Write)];
    RunThen(f0, hs, Done(Leave));
    hs := hs + [Done(Leave)];
    ReturnedIsWritten(1, sync, hs, 1);
  }
}
