/** Every event of group commit keeps the queue split at the written LSN and the log files in order. */
module GroupCommitInvariant {
  import opened Checksum
  import opened LogFormat
  import opened Os
  import opened GroupCommit

  // ---- padding

  lemma PaddingAligns(len: nat)
    ensures var p := PaddingLength(len);
      (len + p) % ALIGNMENT == 0 && (p == 0 || HEADER_SIZE <= p < ALIGNMENT + HEADER_SIZE)
    ensures len % ALIGNMENT == 0 ==> PaddingLength(len) == 0
  {
  }

  ghost predicate AllTxns(items: seq<Item>)
  {
    forall i :: 0 <= i < |items| ==> TxnItem(items[i])
  }

  lemma {:induction false} TxnsOfTxns(items: seq<Item>)
    requires AllTxns(items)
    ensures Txns(items) == items
  {
    if items != [] {
      assert TxnItem(items[0]);
      TxnsOfTxns(items[1..]);
    }
  }

  lemma PaddingIsNoTxn(p: nat)
    requires p == 0 || HEADER_SIZE <= p < 0x1_0000_0000
    ensures Txns(PaddingFor(p)) == [] && WellFormed(PaddingFor(p))
    ensures |Bytes(PaddingFor(p))| == p
  {
    hide HeaderSum;
    var items := PaddingFor(p);
    if p > 0 {
      assert items[1..] == [] && Padding(items[0].header);
      assert |Bytes(items)| == |ItemBytes(items[0])| + |Bytes([])|;
    }
  }

  /** A batch with its padding: sound records, just the batch's transactions, whole sectors. */
  lemma PaddedBatch(len: nat, batch: seq<Item>)
    requires AllTxns(batch)
    ensures WellFormed(Padded(len, batch)) && Txns(Padded(len, batch)) == batch
    ensures (len + |Bytes(Padded(len, batch))|) % ALIGNMENT == 0
    ensures batch == [] && len % ALIGNMENT == 0 ==> Padded(len, batch) == []
  {
    hide ItemBytes, HeaderSum, Seal, TxnItem, PaddingItem;
    var full := len + |Bytes(batch)|;
    var pad := PaddingFor(PaddingLength(full));
    PaddingAligns(full);
    PaddingIsNoTxn(PaddingLength(full));
    TxnsOfTxns(batch);
    TxnsConcat(batch, pad);
    BytesConcat(batch, pad);
  }

  // ---- bytes of the current file

  lemma OverwriteZeros(a: seq<uint8>, zeros: nat, b: seq<uint8>)
    ensures Overwrite(a + Zeros(zeros), |a|, b)
            == a + b + Zeros(if |b| < zeros then zeros - |b| else 0)
  {
    assert (a + Zeros(zeros))[..|a|] == a;
    if |b| < zeros {
      assert (a + Zeros(zeros))[|a| + |b|..] == Zeros(zeros - |b|);
    }
  }

  lemma OpenedZeros(a: seq<uint8>, zeros: nat, maxLen: nat)
    requires |a| <= maxLen
    ensures var f := Opened(a + Zeros(zeros), maxLen); |a| <= |f| && f == a + Zeros(|f| - |a|)
  {
    var file := a + Zeros(zeros);
    var long := if |file| < maxLen then file + Zeros(maxLen - |file|) else file;
    assert long == a + Zeros(|long| - |a|);
    var f := Opened(file, maxLen);
    assert forall i :: 0 <= i < |f| ==> f[i] == (a + Zeros(|f| - |a|))[i];
  }

  // ---- the queue

  lemma QueueKeepsQueue(s: Log, e: Event)
    requires Numbered(s) && Split(s) && Enabled(s, e) && e.Queue?
    ensures Numbered(Apply(s, e)) && Split(Apply(s, e))
  {
    hide HeaderSum, Adler32;
    var s' := Apply(s, e);
    assert s'.queued[|s.queued|] == Sealed(e.opCount, e.data, s.nextLsn);
    var at := s.lastWrite + |InFlight(s)|;
    assert s'.queued[at..] == s.queued[at..] + [s'.queued[|s.queued|]];
    assert s'.queued[s.lastWrite..at] == s.queued[s.lastWrite..at];
  }

  lemma EnsureOpenFrame(s: Log, p: nat)
    ensures var o := EnsureOpen(s, p);
      && o.queued == s.queued && o.waiting == s.waiting && o.lastWrite == s.lastWrite && o.lastSync == s.lastSync
      && o.nextLsn == s.nextLsn && o.holder == s.holder && o.threads == s.threads && o.returned == s.returned
      && o.maxLen == s.maxLen && o.sync == s.sync
  {
    hide Opened;
  }

  lemma FetchKeepsQueue(s: Log)
    requires Numbered(s) && Split(s) && Enabled(s, Fetch)
    ensures Numbered(Apply(s, Fetch)) && Split(Apply(s, Fetch))
  {
    hide EnsureOpen, Batch, TxnItem;
    var s' := Apply(s, Fetch);
    EnsureOpenFrame(s, s.holder.value.process);
    var batch := InFlight(s');
    assert batch <= s.waiting;
    var at, to := s.lastWrite, s.lastWrite + |batch|;
    assert s.queued[at..][..|batch|] == s.queued[at..to];
    assert s.queued[at..][|batch|..] == s.queued[to..];
  }

  lemma WriteAdvances(s: Log)
    requires Numbered(s) && Split(s) && Enabled(s, Write)
    ensures AllTxns(InFlight(s))
    ensures Apply(s, Write).lastWrite == s.lastWrite + |InFlight(s)|
  {
    hide TxnItem, Overwrite, Bytes;
    var batch := InFlight(s);
    forall i | 0 <= i < |batch| ensures TxnItem(batch[i]) && LsnOf(batch[i]) == s.lastWrite + i + 1 {
      assert batch[i] == s.queued[s.lastWrite + i];
    }
  }

  lemma WriteKeepsQueue(s: Log)
    requires Numbered(s) && Split(s) && Enabled(s, Write)
    ensures Numbered(Apply(s, Write)) && Split(Apply(s, Write))
  {
    hide TxnItem, Overwrite, Padded, Bytes;
    WriteAdvances(s);
  }

  lemma EventKeepsQueue(s: Log, e: Event)
    requires Numbered(s) && Split(s) && Enabled(s, e)
    ensures Numbered(Apply(s, e)) && Split(Apply(s, e))
  {
    hide TxnItem;
    match e
    case Queue(_, _, _) => QueueKeepsQueue(s, e);
    case Fetch => FetchKeepsQueue(s);
    case Write => WriteKeepsQueue(s);
    case _ =>
  }

  // ---- the files

  lemma NameBounds(s: Log, i: nat)
    requires Directory(s) && i < |s.names|
    ensures s.names[i] <= s.lastWrite
  {
    hide Bytes, Zeros, WellFormed, Txns;
    assert FileHolds(s, |s.names| - 1);
  }

  lemma LastName(s: Log)
    requires Directory(s) && s.lastWrite in s.files
    ensures s.names != [] && s.names[|s.names| - 1] == s.lastWrite
    ensures s.placed[|s.names| - 1] == []
  {
    hide WellFormed, Bytes, Zeros;
    var i :| 0 <= i < |s.names| && s.names[i] == s.lastWrite;
    var last := |s.names| - 1;
    assert FileHolds(s, last) && Upper(s, last) == s.lastWrite;
    NameBounds(s, last);
  }

  lemma RollKeepsFiles(s: Log)
    requires Directory(s) && Current(s) && (s.holder.Some? ==> s.holder.value.batch.None?)
    ensures Directory(Rolled(s)) && Current(Rolled(s))
  {
    hide Holds, Bytes;
    var s' := Rolled(s);
    forall i | 0 <= i < |s.names| ensures FileHolds(s', i) {
      assert FileHolds(s, i);
    }
    if s.lastWrite in s.files {
      LastName(s);
      BytesOfNone();
    }
  }

  lemma BytesOfNone()
    ensures Bytes([]) == [] && Txns([]) == []
  {
  }

  lemma OpenOldFile(s: Log, p: nat)
    requires Directory(s) && Current(s) && s.name.Some? && s.name.value in s.files && s.logLen <= s.maxLen
    ensures Directory(OpenFile(s, p)) && Current(OpenFile(s, p))
  {
    hide Opened, Bytes, Holds;
    var s' := OpenFile(s, p);
    forall i | 0 <= i < |s.names| ensures FileHolds(s', i) {
      assert FileHolds(s, i);
      if i == |s.names| - 1 {
        OpenedHolds(s.names[i], Upper(s, i), s.placed[i], s.files[s.names[i]], s.queued, s.maxLen);
      }
    }
  }

  lemma OpenedHolds(n: nat, upper: nat, items: seq<Item>, file: seq<uint8>, queued: seq<Item>, maxLen: nat)
    requires Holds(n, upper, items, file, queued) && |Bytes(items)| <= maxLen
    ensures Holds(n, upper, items, Opened(file, maxLen), queued)
  {
    hide Bytes, Txns, WellFormed, Opened;
    OpenedZeros(Bytes(items), |file| - |Bytes(items)|, maxLen);
  }

  lemma NewHolds(n: nat, queued: seq<Item>, maxLen: nat)
    requires n <= |queued|
    ensures Holds(n, n, [], Opened([], maxLen), queued)
  {
    hide Opened;
    BytesOfNone();
    OpenedZeros([], 0, maxLen);
    assert [] + Zeros(0) == [];
  }

  lemma ListOneMore(names: seq<nat>, files: map<nat, seq<uint8>>, n: nat, file: seq<uint8>)
    requires Listed(names, files) && forall i :: 0 <= i < |names| ==> names[i] < n
    ensures Listed(names + [n], files[n := file])
  {
  }

  lemma OpenNewFile(s: Log, p: nat)
    requires Directory(s) && Current(s) && s.name.Some? && s.name.value !in s.files && s.lastWrite <= |s.queued|
    ensures Directory(OpenFile(s, p)) && Current(OpenFile(s, p))
  {
    hide Opened, Holds, Bytes, Listed;
    var s', n, last := OpenFile(s, p), s.name.value, |s.names|;
    forall i | 0 <= i < last ensures FileHolds(s', i) && s.names[i] < n {
      assert FileHolds(s, i);
      NameBounds(s, i);
    }
    ListOneMore(s.names, s.files, n, s'.files[n]);
    NewHolds(n, s.queued, s.maxLen);
    BytesOfNone();
    assert FileHolds(s', last);
  }

  lemma OpenKeepsFiles(s: Log, p: nat)
    requires Directory(s) && Current(s) && s.lastWrite <= |s.queued|
    requires s.holder.Some? ==> s.holder.value.batch.None?
    ensures var o := EnsureOpen(s, p);
      Directory(o) && Current(o) && o.name.Some? && o.name.value in o.files
  {
    hide Directory, Opened, Bytes;
    var r := if MustRoll(s) then Rolled(s) else s;
    if MustRoll(s) {
      RollKeepsFiles(s);
    }
    if MustRoll(s) || p !in s.mine || s.mine[p] != s.name.value {
      if r.name.value in r.files {
        OpenOldFile(r, p);
      } else {
        OpenNewFile(r, p);
      }
    }
  }

  lemma FetchKeepsFiles(s: Log)
    requires Split(s) && Directory(s) && Current(s) && Enabled(s, Fetch)
    ensures Directory(Apply(s, Fetch)) && Current(Apply(s, Fetch))
  {
    hide Batch, EnsureOpen, Holds, Bytes, Listed;
    var o := EnsureOpen(s, s.holder.value.process);
    OpenKeepsFiles(s, s.holder.value.process);
    var s' := Apply(s, Fetch);
    forall i | 0 <= i < |s'.names| ensures FileHolds(s', i) {
      assert FileHolds(o, i);
    }
  }

  /** Appending a padded batch at the end of a file's data. */
  lemma HoldsMore(n: nat, upper: nat, items: seq<Item>, file: seq<uint8>, queued: seq<Item>, batch: seq<Item>)
    requires Holds(n, upper, items, file, queued) && AllTxns(batch)
    requires upper + |batch| <= |queued| && batch == queued[upper..upper + |batch|]
    ensures var len := |Bytes(items)|; var more := Padded(len, batch);
      && Holds(n, upper + |batch|, items + more, Overwrite(file, len, Bytes(more)), queued)
      && |Bytes(items + more)| == len + |Bytes(more)|
  {
    hide Bytes, Padded, Overwrite, TxnItem, PaddingItem, Txns;
    var len := |Bytes(items)|;
    var more := Padded(len, batch);
    PaddedBatch(len, batch);
    BytesConcat(items, more);
    TxnsConcat(items, more);
    OverwriteZeros(Bytes(items), |file| - len, Bytes(more));
    assert queued[n..upper] + queued[upper..upper + |batch|] == queued[n..upper + |batch|];
    if batch == [] {
      assert items + more == items;
    }
  }

  lemma WriteKeepsLast(s: Log)
    requires Numbered(s) && Split(s) && Directory(s) && Current(s) && Enabled(s, Write)
    ensures var s', last := Apply(s, Write), |s.names| - 1;
      && |s'.names| == |s'.placed| && FileHolds(s', last) && s'.logLen == |Bytes(s'.placed[last])|
      && s'.placed[..last] == s.placed[..last]
  {
    hide Numbered, Holds, Padded, Bytes, Overwrite, LsnOf, Listed;
    var last := |s.names| - 1;
    WriteAdvances(s);
    assert FileHolds(s, last);
    HoldsMore(s.names[last], Upper(s, last), s.placed[last], s.files[s.names[last]], s.queued, InFlight(s));
  }

  lemma WriteKeepsOther(s: Log, i: nat)
    requires Numbered(s) && Split(s) && Directory(s) && Current(s) && Enabled(s, Write) && i + 1 < |s.names|
    ensures |Apply(s, Write).placed| == |s.names| && FileHolds(Apply(s, Write), i)
  {
    hide Numbered, Holds, Padded, Bytes, Overwrite, LsnOf, Split;
    assert FileHolds(s, i) && s.names[i] < s.names[|s.names| - 1];
  }

  lemma ListSame(names: seq<nat>, files: map<nat, seq<uint8>>, n: nat, file: seq<uint8>)
    requires Listed(names, files) && n in files
    ensures Listed(names, files[n := file])
  {
  }

  lemma WriteKeepsFiles(s: Log)
    requires Numbered(s) && Split(s) && Directory(s) && Current(s) && Enabled(s, Write)
    ensures Directory(Apply(s, Write)) && Current(Apply(s, Write))
  {
    hide Numbered, FileHolds, Padded, Bytes, Overwrite, LsnOf, Listed, Split;
    var s', last := Apply(s, Write), |s.names| - 1;
    WriteAdvances(s);
    WriteKeepsLast(s);
    forall i | 0 <= i < |s'.names| ensures FileHolds(s', i) {
      if i < last {
        WriteKeepsOther(s, i);
      }
    }
    ListSame(s.names, s.files, s.name.value, s'.files[s.name.value]);
  }

  lemma EventKeepsFiles(s: Log, e: Event)
    requires Inv(s) && Enabled(s, e)
    ensures Directory(Apply(s, e)) && Current(Apply(s, e))
  {
    hide Numbered, Served, Holds, Bytes, Sealed, EnsureOpen;
    match e
    case Fetch => FetchKeepsFiles(s);
    case Write => WriteKeepsFiles(s);
    case Roll => RollKeepsFiles(s);
    case _ =>
      var s' := Apply(s, e);
      forall i | 0 <= i < |s'.names| ensures FileHolds(s', i) {
        assert FileHolds(s, i);
        HoldsLonger(s.names[i], Upper(s, i), s.placed[i], s.files[s.names[i]], s.queued, s'.queued);
      }
  }

  lemma HoldsLonger(n: nat, upper: nat, items: seq<Item>, file: seq<uint8>, queued: seq<Item>, longer: seq<Item>)
    requires Holds(n, upper, items, file, queued) && queued <= longer
    ensures Holds(n, upper, items, file, longer)
  {
    hide Bytes, Txns, WellFormed;
    assert longer[n..upper] == queued[n..upper];
  }

  // ---- the threads

  /** One pass takes at least one buffer from the queue, exactly when files may have any length at all. */
  lemma PassTakesSome(s: Log)
    requires Inv(s) && Enabled(s, Fetch)
    ensures s.maxLen > 0 <==> InFlight(Apply(s, Fetch)) != []
  {
    hide Numbered, Directory, Opened;
    EnsureOpenFrame(s, s.holder.value.process);
  }

  lemma EventKeepsServed(s: Log, e: Event)
    requires Inv(s) && Enabled(s, e)
    ensures Served(Apply(s, e))
  {
    hide Directory, Current, EnsureOpen, Sealed, Batch, Overwrite, Padded, Bytes, LsnOf;
    match e
    case Fetch =>
      EnsureOpenFrame(s, s.holder.value.process);
      PassTakesSome(s);
    case Write => WriteAdvances(s);
    case _ =>
  }

  lemma EventKeepsInv(s: Log, e: Event)
    requires Inv(s) && Enabled(s, e)
    ensures Inv(Apply(s, e))
  {
    hide Numbered, Split, Directory, Current, Served;
    EventKeepsQueue(s, e);
    EventKeepsFiles(s, e);
    EventKeepsServed(s, e);
  }

  lemma {:induction false} RunKeepsInv(s: Log, es: seq<Event>)
    requires Inv(s) && ValidRun(s, es)
    ensures Inv(Exec(s, es))
    decreases |es|
  {
    hide Inv, Apply;
    if es != [] {
      EventKeepsInv(s, es[0]);
      RunKeepsInv(Apply(s, es[0]), es[1..]);
    }
  }

  lemma InitialInv(maxLen: nat, sync: bool)
    ensures Inv(Initial(maxLen, sync))
  {
  }
}
