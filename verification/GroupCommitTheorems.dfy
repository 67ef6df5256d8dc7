/** What group commit guarantees over every run, and what the log reader makes of its files. */
module GroupCommitTheorems {
  import opened Checksum
  import opened LogFormat
  import opened LogReader
  import opened Os
  import opened GroupCommit
  import opened GroupCommitInvariant

  /**
   In every reachable state the queued buffers carry the LSNs 1, 2, .. in queue order, and each is in
   exactly one place: written, in the batch of the holder of the file mutex, or waiting.
   */
  lemma WaitingIsTheRest(maxLen: nat, sync: bool, es: seq<Event>)
    requires ValidRun(Initial(maxLen, sync), es)
    ensures var s := Exec(Initial(maxLen, sync), es);
      && s.lastWrite <= |s.queued|
      && s.queued[..s.lastWrite] + InFlight(s) + s.waiting == s.queued
      && s.nextLsn == |s.queued| + 1
      && forall i :: 0 <= i < |s.queued| ==> s.queued[i].header.lsn as int == i + 1
  {
    hide Inv;
    InitialInv(maxLen, sync);
    RunKeepsInv(Initial(maxLen, sync), es);
    SplitInThree(Exec(Initial(maxLen, sync), es));
  }

  lemma SplitInThree(s: Log)
    requires Inv(s)
    ensures s.lastWrite <= |s.queued|
    ensures s.queued[..s.lastWrite] + InFlight(s) + s.waiting == s.queued
    ensures s.nextLsn == |s.queued| + 1
    ensures forall i :: 0 <= i < |s.queued| ==> s.queued[i].header.lsn as int == i + 1
  {
    hide TxnItem, Directory, Current, Served;
    var at, to := s.lastWrite, s.lastWrite + |InFlight(s)|;
    assert s.queued[..at] + s.queued[at..to] + s.queued[to..] == s.queued;
  }

  /** The directory as recovery reads it: all files in the order of their names. */
  function ReadFiles(files: map<nat, seq<uint8>>, names: seq<nat>): (items: seq<Item>)
    requires forall n :: n in names ==> n in files
  {
    if names == [] then []
    else
      var last := |names| - 1;
      ReadFiles(files, names[..last]) + ReadAll(files[names[last]]).0
  }

  lemma ReadOneFile(s: Log, i: nat)
    requires Inv(s) && i < |s.names|
    ensures s.names[i] in s.files && s.names[i] <= Upper(s, i) <= s.lastWrite <= |s.queued|
    ensures ReadAll(s.files[s.names[i]]) == (s.queued[s.names[i]..Upper(s, i)], End)
  {
    hide Numbered, Served, ReadAll, Txns, Bytes, WellFormed;
    assert FileHolds(s, i);
    if i + 1 < |s.names| {
      NameBounds(s, i + 1);
    }
    var items, file := s.placed[i], s.files[s.names[i]];
    RoundTrip(items, |file| - |Bytes(items)|);
  }

  lemma NamesKnown(s: Log)
    requires Inv(s) && s.names != []
    ensures s.names[0] == 0 && forall n :: n in s.names ==> n in s.files
  {
  }

  lemma OneMoreFile(files: map<nat, seq<uint8>>, names: seq<nat>, n: nat)
    requires 0 < n <= |names| && forall m :: m in names ==> m in files
    ensures ReadFiles(files, names[..n]) == ReadFiles(files, names[..n - 1]) + ReadAll(files[names[n - 1]]).0
  {
    hide ReadAll;
    assert names[..n][..n - 1] == names[..n - 1];
  }

  lemma UpperBefore(s: Log, n: nat)
    requires Inv(s) && 0 < n <= |s.names|
    ensures if n == 1 then s.names[0] == 0 else Upper(s, n - 2) == s.names[n - 1]
  {
  }

  lemma {:induction false} ReadFirstFiles(s: Log, n: nat)
    requires Inv(s) && n <= |s.names| && forall m :: m in s.names ==> m in s.files
    ensures n > 0 ==> Upper(s, n - 1) <= |s.queued|
    ensures ReadFiles(s.files, s.names[..n]) == if n == 0 then [] else s.queued[..Upper(s, n - 1)]
  {
    hide Inv, ReadAll, Upper;
    if n == 0 {
      assert s.names[..0] == [];
    } else {
      OneMoreFile(s.files, s.names, n);
      ReadFirstFiles(s, n - 1);
      ReadOneFile(s, n - 1);
      UpperBefore(s, n);
      hide ReadFiles;
      assert s.queued[..s.names[n - 1]] + s.queued[s.names[n - 1]..Upper(s, n - 1)] == s.queued[..Upper(s, n - 1)];
    }
  }

  /**
   The log round trip.  After any run the file named `n` reads back as the queued transactions with
   LSNs from `n + 1` to the name of the next file and then its end, its data ends on a sector
   boundary, and all files together read back as exactly the transactions written, header and
   buffer, in LSN order and once each.
   */
  lemma LogReadsBack(maxLen: nat, sync: bool, es: seq<Event>)
    requires ValidRun(Initial(maxLen, sync), es)
    ensures var s := Exec(Initial(maxLen, sync), es);
      && s.lastWrite <= |s.queued| && s.logLen % ALIGNMENT == 0
      && (forall n :: n in s.files <==> n in s.names) && Ascending(s.names)
      && (forall i :: 0 <= i < |s.names| ==>
            && s.names[i] <= Upper(s, i) <= |s.queued|
            && ReadAll(s.files[s.names[i]]) == (s.queued[s.names[i]..Upper(s, i)], End))
      && ReadFiles(s.files, s.names) == s.queued[..s.lastWrite]
  {
    InitialInv(maxLen, sync);
    RunKeepsInv(Initial(maxLen, sync), es);
    var s := Exec(Initial(maxLen, sync), es);
    ReadsBack(s);
  }

  lemma ReadsBack(s: Log)
    requires Inv(s)
    ensures s.lastWrite <= |s.queued| && s.logLen % ALIGNMENT == 0
    ensures (forall n :: n in s.files <==> n in s.names) && Ascending(s.names)
    ensures forall i :: 0 <= i < |s.names| ==>
      && s.names[i] <= Upper(s, i) <= |s.queued|
      && ReadAll(s.files[s.names[i]]) == (s.queued[s.names[i]..Upper(s, i)], End)
    ensures ReadFiles(s.files, s.names) == s.queued[..s.lastWrite]
  {
    hide Numbered, Served, ReadAll, ReadFiles;
    forall i | 0 <= i < |s.names|
      ensures s.names[i] <= Upper(s, i) <= |s.queued|
      ensures ReadAll(s.files[s.names[i]]) == (s.queued[s.names[i]..Upper(s, i)], End)
    {
      ReadOneFile(s, i);
    }
    ReadFirstFiles(s, |s.names|);
    assert s.names[..|s.names|] == s.names;
    LengthIsAligned(s);
  }

  lemma LengthIsAligned(s: Log)
    requires Inv(s)
    ensures s.logLen % ALIGNMENT == 0
  {
    hide Numbered, Served, Bytes, Txns, WellFormed;
    if s.name.Some? && s.name.value in s.files {
      assert FileHolds(s, |s.names| - 1);
    }
  }

  /** Cutting a log file at any byte leaves a prefix of its transactions, and then the reader stops. */
  lemma CutFileReadsPrefix(s: Log, i: nat, n: nat)
    requires Inv(s) && i < |s.names| && s.names[i] in s.files && n <= |s.files[s.names[i]]|
    ensures s.names[i] <= Upper(s, i) <= |s.queued|
    ensures ReadAll(s.files[s.names[i]][..n]).0 <= s.queued[s.names[i]..Upper(s, i)]
    ensures !ReadAll(s.files[s.names[i]][..n]).1.Txn?
  {
    hide Numbered, Served, ReadAll, Txns, Bytes, WellFormed;
    assert FileHolds(s, i);
    var items, file := s.placed[i], s.files[s.names[i]];
    Truncated(items, |file| - |Bytes(items)|, n);
    WithinIsPrefix(items, n);
  }

  // ---- liveness

  /** What the holder of the file mutex still has to do. */
  function Left(s: Log): nat
    requires s.holder.Some?
  {
    var behind := if s.lastWrite < s.holder.value.lsn then s.holder.value.lsn - s.lastWrite else 0;
    2 * behind + if s.holder.value.batch.Some? then 0 else 1
  }

  lemma HolderHasStep(s: Log)
    requires Inv(s) && s.holder.Some?
    ensures Enabled(s, Fetch) || Enabled(s, Write) || Enabled(s, Leave)
  {
    hide Numbered, Split, Served, Bytes, Txns, WellFormed;
    if s.holder.value.batch.Some? {
      assert FileHolds(s, |s.names| - 1);
    }
  }

  lemma FetchIsProgress(s: Log)
    requires Inv(s) && s.maxLen > 0 && Enabled(s, Fetch)
    ensures var s' := Apply(s, Fetch);
      s'.holder.Some? && Left(s') < Left(s) && InFlight(s') != []
  {
    hide Inv, EnsureOpen, Batch;
    PassTakesSome(s);
    EnsureOpenFrame(s, s.holder.value.process);
  }

  lemma WriteIsProgress(s: Log)
    requires Inv(s) && s.maxLen > 0 && Enabled(s, Write)
    ensures var s' := Apply(s, Write);
      s'.holder.Some? && s'.lastWrite > s.lastWrite && Left(s') < Left(s)
  {
    hide Directory, Current, Numbered, Split, Padded, Overwrite, Bytes, LsnOf;
    WriteAdvances(s);
  }

  /** Inside `log` there is always a next step, and each one brings the end of the call nearer. */
  lemma LogProgresses(s: Log)
    requires Inv(s) && s.holder.Some? && s.maxLen > 0
    ensures Enabled(s, Fetch) || Enabled(s, Write) || Enabled(s, Leave)
    ensures Enabled(s, Fetch) ==> Left(Apply(s, Fetch)) < Left(s)
    ensures Enabled(s, Write) ==> Left(Apply(s, Write)) < Left(s) && Apply(s, Write).lastWrite > s.lastWrite
  {
    hide Inv, Apply, Left;
    HolderHasStep(s);
    if Enabled(s, Fetch) {
      FetchIsProgress(s);
    }
    if Enabled(s, Write) {
      WriteIsProgress(s);
    }
  }

  /** How many of the events are steps of the loop of `log`. */
  function LoopSteps(es: seq<Event>): nat
    decreases |es|
  {
    if es == [] then 0 else (if es[0].Fetch? || es[0].Write? then 1 else 0) + LoopSteps(es[1..])
  }

  /**
   A call of `log` ends.  While a thread is inside, and until it leaves, the loop takes at most `Left`
   steps, two for each LSN that was missing, whatever other threads queue in between; and when it takes
   none, the thread can leave.
   */
  lemma {:induction false} LogTerminates(s: Log, es: seq<Event>)
    requires Inv(s) && s.holder.Some? && s.maxLen > 0 && ValidRun(s, es)
    requires forall i :: 0 <= i < |es| ==> !es[i].Leave?
    ensures Exec(s, es).holder.Some? && LoopSteps(es) + Left(Exec(s, es)) <= Left(s)
    ensures !Enabled(Exec(s, es), Fetch) && !Enabled(Exec(s, es), Write) ==> Enabled(Exec(s, es), Leave)
    decreases |es|
  {
    hide Inv, Left;
    LogProgresses(s);
    if es != [] {
      EventKeepsInv(s, es[0]);
      HolderStays(s, es[0]);
      assert !es[0].Leave? && forall i :: 0 <= i < |es[1..]| ==> es[1..][i] == es[i + 1];
      LogTerminates(Apply(s, es[0]), es[1..]);
    }
  }

  lemma HolderStays(s: Log, e: Event)
    requires Inv(s) && s.holder.Some? && Enabled(s, e) && !e.Leave?
    ensures Apply(s, e).holder.Some? && Apply(s, e).maxLen == s.maxLen
    ensures e.Queue? ==> Left(Apply(s, e)) == Left(s)
    ensures e.Queue? || e.Fetch? || e.Write?
  {
    hide Inv, Sealed, EnsureOpen, Padded, Overwrite;
    if e.Fetch? {
      EnsureOpenFrame(s, s.holder.value.process);
    }
  }

  /** While a queued thread has not returned, some thread can take a step inside `log` or enter it. */
  lemma NobodyIsStuck(s: Log, t: nat)
    requires Inv(s) && t in s.threads && t !in s.returned
    ensures Enabled(s, Enter(t, 0)) || Enabled(s, Fetch) || Enabled(s, Write) || Enabled(s, Leave)
  {
    hide Inv;
    if s.holder.Some? {
      HolderHasStep(s);
    }
  }

  /** If files may not have any length, `log` never writes and nobody returns from it. */
  lemma {:induction false} NoLengthNoProgress(s: Log, es: seq<Event>)
    requires Inv(s) && s.maxLen == 0 && s.lastWrite == 0 && ValidRun(s, es)
    requires InFlight(s) == []
    ensures Exec(s, es).lastWrite == 0 && Exec(s, es).returned == s.returned
    decreases |es|
  {
    hide Numbered, Directory, Current;
    if es != [] {
      var s' := Apply(s, es[0]);
      EventKeepsInv(s, es[0]);
      if es[0].Fetch? {
        PassTakesSome(s);
        EnsureOpenFrame(s, s.holder.value.process);
      }
      NoLengthNoProgress(s', es[1..]);
    }
  }

  /** A thread that has returned from `log` finds its buffer written and, if asked for, synced. */
  lemma ReturnedIsDurable(maxLen: nat, sync: bool, es: seq<Event>, t: nat)
    requires ValidRun(Initial(maxLen, sync), es) && t in Exec(Initial(maxLen, sync), es).returned
    ensures var s := Exec(Initial(maxLen, sync), es);
      t in s.threads && s.threads[t] <= s.lastWrite && (sync ==> s.threads[t] <= s.lastSync)
  {
    InitialInv(maxLen, sync);
    RunKeepsInv(Initial(maxLen, sync), es);
    ConfigStays(Initial(maxLen, sync), es);
    assert Served(Exec(Initial(maxLen, sync), es));
  }

  lemma {:induction false} ConfigStays(s: Log, es: seq<Event>)
    requires ValidRun(s, es)
    ensures Exec(s, es).sync == s.sync && Exec(s, es).maxLen == s.maxLen
    decreases |es|
  {
    hide Sealed, EnsureOpen, Padded, Overwrite;
    if es != [] {
      if es[0].Fetch? {
        EnsureOpenFrame(s, s.holder.value.process);
      }
      ConfigStays(Apply(s, es[0]), es[1..]);
    }
  }

  /** Unless `log_sync` is set, nothing is ever synced for a commit. */
  lemma {:induction false} NoSyncUnlessAsked(s: Log, es: seq<Event>)
    requires ValidRun(s, es) && !s.sync
    ensures Exec(s, es).lastSync == s.lastSync
    decreases |es|
  {
    hide Sealed, EnsureOpen, Padded, Overwrite;
    if es != [] {
      if es[0].Fetch? {
        EnsureOpenFrame(s, s.holder.value.process);
      }
      NoSyncUnlessAsked(Apply(s, es[0]), es[1..]);
    }
  }
}
