/** How group commit fills its files: when a new one is started, and how far one is written. */
module GroupCommitFiles {
  import opened Checksum
  import opened LogFormat
  import opened Os
  import opened GroupCommit
  import opened GroupCommitInvariant

  // ---- the batch

  /** Every record of the batch begins below the maximum length. */
  lemma {:induction false} BatchInside(waiting: seq<Item>, len: nat, maxLen: nat, n: nat, k: nat)
    requires k < |Batch(waiting, len, maxLen, n)|
    ensures len + |Bytes(Batch(waiting, len, maxLen, n)[..k])| < maxLen
    decreases n
  {
    hide ItemBytes;
    var b := Batch(waiting, len, maxLen, n);
    if k > 0 {
      var rest := Batch(waiting[1..], len + |ItemBytes(waiting[0])|, maxLen, n - 1);
      BatchInside(waiting[1..], len + |ItemBytes(waiting[0])|, maxLen, n - 1, k - 1);
      assert b[..k] == [waiting[0]] + rest[..k - 1] && b[..k][1..] == rest[..k - 1];
    }
  }

  /** The batch stops only at its limit, at the end of the queue, or at the maximum length. */
  lemma {:induction false} BatchMaximal(waiting: seq<Item>, len: nat, maxLen: nat, n: nat)
    ensures var b := Batch(waiting, len, maxLen, n);
      |b| <= n && (|b| == n || b == waiting || len + |Bytes(b)| >= maxLen)
    decreases n
  {
    hide ItemBytes;
    if n > 0 && waiting != [] && len < maxLen {
      var rest := Batch(waiting[1..], len + |ItemBytes(waiting[0])|, maxLen, n - 1);
      BatchMaximal(waiting[1..], len + |ItemBytes(waiting[0])|, maxLen, n - 1);
      assert ([waiting[0]] + rest)[1..] == rest;
    }
  }

  /**
   A pass takes as much as it may: it leaves a buffer waiting only if it has taken seven, or if the file
   is full with what it has taken.
   */
  lemma PassTakesWhatFits(s: Log)
    requires Inv(s) && Enabled(s, Fetch)
    ensures var s' := Apply(s, Fetch); var batch := InFlight(s');
      && |batch| <= 7 && s.waiting == batch + s'.waiting
      && (s'.waiting != [] ==> |batch| == 7 || s'.logLen + |Bytes(batch)| >= s.maxLen)
  {
    hide Inv, EnsureOpen, Batch, Bytes;
    EnsureOpenFrame(s, s.holder.value.process);
    var o := EnsureOpen(s, s.holder.value.process);
    BatchMaximal(o.waiting, o.logLen, o.maxLen, MAX_TXN_PER_WRITE);
  }

  // ---- opening a file

  /** What opening does to the files: nothing, or one more, and that only when the current one is full. */
  lemma OpeningAdds(s: Log, p: nat)
    requires Inv(s)
    ensures var o := EnsureOpen(s, p);
      && o.name.Some? && o.name.value in o.files
      && ((o.names == s.names && o.placed == s.placed) || (o.names == s.names + [o.name.value] && o.placed == s.placed + [[]]))
      && (o.names != s.names && s.name.Some? && s.name.value in s.files ==> s.logLen >= s.maxLen)
  {
    hide Opened, FileHolds, Numbered, Split, Served;
  }

  ghost predicate NoRoll(es: seq<Event>)
  {
    forall i :: 0 <= i < |es| ==> !es[i].Roll?
  }

  // ---- every file but the last is full

  ghost predicate Filled(s: Log)
  {
    && |s.placed| == |s.names|
    && (s.name.Some? ==> s.name.value in s.files)
    && forall i :: 0 <= i && i + 1 < |s.names| ==> |Bytes(s.placed[i])| >= s.maxLen
  }

  lemma LastIsCurrent(s: Log)
    requires Inv(s) && s.names != []
    ensures |s.placed| == |s.names| && s.name.Some?
    ensures s.name.value in s.files ==> s.logLen == |Bytes(s.placed[|s.placed| - 1])|
  {
    hide Bytes, Numbered, Split, Served, FileHolds;
  }

  lemma FetchKeepsFilled(s: Log)
    requires Inv(s) && Filled(s) && Enabled(s, Fetch)
    ensures Filled(Apply(s, Fetch))
  {
    hide Inv, EnsureOpen, Batch, Bytes;
    var p := s.holder.value.process;
    OpeningAdds(s, p);
    EnsureOpenFrame(s, p);
    if s.names != [] {
      LastIsCurrent(s);
    }
  }

  lemma WriteKeepsFilled(s: Log)
    requires Inv(s) && Filled(s) && Enabled(s, Write)
    ensures Filled(Apply(s, Write))
  {
    hide Numbered, Split, Served, Padded, Bytes, Overwrite, LsnOf, FileHolds, Listed;
  }

  lemma {:induction false} RunKeepsFilled(s: Log, es: seq<Event>)
    requires Inv(s) && Filled(s) && ValidRun(s, es) && NoRoll(es)
    ensures Filled(Exec(s, es)) && Exec(s, es).maxLen == s.maxLen
    decreases |es|
  {
    hide Inv, EnsureOpen, Batch, Padded, Bytes, Overwrite, Sealed;
    if es != [] {
      assert !es[0].Roll?;
      EventKeepsInv(s, es[0]);
      if es[0].Fetch? {
        FetchKeepsFilled(s);
        EnsureOpenFrame(s, s.holder.value.process);
      } else if es[0].Write? {
        WriteKeepsFilled(s);
      }
      RunKeepsFilled(Apply(s, es[0]), es[1..]);
    }
  }

  /**
   Files are filled before a new one is started: in every run without a checkpoint's roll, every file
   but the last has records of at least the maximum length.
   */
  lemma FilesAreFilled(maxLen: nat, sync: bool, es: seq<Event>, i: nat)
    requires ValidRun(Initial(maxLen, sync), es) && NoRoll(es) && i + 1 < |Exec(Initial(maxLen, sync), es).names|
    ensures var s := Exec(Initial(maxLen, sync), es);
      i < |s.placed| && |Bytes(s.placed[i])| >= maxLen
  {
    hide Bytes;
    InitialInv(maxLen, sync);
    RunKeepsFilled(Initial(maxLen, sync), es);
  }

  // ---- no record begins beyond the maximum length

  /** Each transaction among the records begins below `maxLen`. */
  ghost predicate BeginInside(records: seq<Item>, maxLen: nat)
  {
    forall k :: 0 <= k < |records| && !Padding(records[k].header) ==> |Bytes(records[..k])| < maxLen
  }

  ghost predicate Inside(s: Log)
  {
    && (forall i :: 0 <= i < |s.placed| ==> BeginInside(s.placed[i], s.maxLen))
    && forall k :: 0 <= k < |InFlight(s)| ==> s.logLen + |Bytes(InFlight(s)[..k])| < s.maxLen
  }

  /** A batch behind the records of a file. */
  lemma AppendInside(records: seq<Item>, batch: seq<Item>, pad: seq<Item>, maxLen: nat)
    requires BeginInside(records, maxLen) && forall k :: 0 <= k < |pad| ==> Padding(pad[k].header)
    requires forall k :: 0 <= k < |batch| ==> |Bytes(records)| + |Bytes(batch[..k])| < maxLen
    ensures BeginInside(records + (batch + pad), maxLen)
  {
    hide Bytes, Padding;
    var behind := batch + pad;
    var all := records + behind;
    assert forall d :: |batch| <= d < |behind| ==> Padding(behind[d].header);
    forall k | 0 <= k < |all| && !Padding(all[k].header) ensures |Bytes(all[..k])| < maxLen {
      if k < |records| {
        assert all[..k] == records[..k];
      } else {
        var d := k - |records|;
        assert all[k] == behind[d];
        assert all[..k] == records + batch[..d];
        BytesConcat(records, batch[..d]);
      }
    }
  }

  lemma PaddingOnly(p: nat)
    requires p == 0 || HEADER_SIZE <= p < 0x1_0000_0000
    ensures forall k :: 0 <= k < |PaddingFor(p)| ==> Padding(PaddingFor(p)[k].header)
  {
    hide HeaderSum;
  }

  lemma FetchKeepsInside(s: Log)
    requires Inv(s) && Inside(s) && Enabled(s, Fetch)
    ensures Inside(Apply(s, Fetch))
  {
    hide Inv, EnsureOpen, Batch, BeginInside;
    var p := s.holder.value.process;
    OpeningAdds(s, p);
    EnsureOpenFrame(s, p);
    var o, s' := EnsureOpen(s, p), Apply(s, Fetch);
    forall k | 0 <= k < |InFlight(s')| ensures s'.logLen + |Bytes(InFlight(s')[..k])| < s'.maxLen {
      BatchInside(o.waiting, o.logLen, o.maxLen, MAX_TXN_PER_WRITE, k);
    }
    NothingInside(s.maxLen);
  }

  lemma NothingInside(maxLen: nat)
    ensures BeginInside([], maxLen)
  {
  }

  lemma WriteKeepsInside(s: Log)
    requires Inv(s) && Inside(s) && Enabled(s, Write)
    ensures Inside(Apply(s, Write))
  {
    hide Bytes, PaddingFor, Overwrite, LsnOf, BeginInside, Numbered, Split, Served, FileHolds;
    var batch := InFlight(s);
    var full := s.logLen + |Bytes(batch)|;
    PaddingAligns(full);
    PaddingOnly(PaddingLength(full));
    LastIsCurrent(s);
    AppendInside(s.placed[|s.placed| - 1], batch, PaddingFor(PaddingLength(full)), s.maxLen);
  }

  lemma QuietKeepsInside(s: Log, e: Event)
    requires Inside(s) && Enabled(s, e) && !e.Fetch? && !e.Write?
    ensures Inside(Apply(s, e)) && Apply(s, e).maxLen == s.maxLen
  {
    hide BeginInside, Bytes, Sealed;
    assert InFlight(Apply(s, e)) == InFlight(s);
    assert e.Roll? ==> InFlight(s) == [];
  }

  lemma {:induction false} RunKeepsInside(s: Log, es: seq<Event>)
    requires Inv(s) && Inside(s) && ValidRun(s, es)
    ensures Inside(Exec(s, es)) && Exec(s, es).maxLen == s.maxLen
    decreases |es|
  {
    hide Inv, EnsureOpen, Batch, Padded, Bytes, Overwrite, Sealed, BeginInside, Inside;
    if es != [] {
      EventKeepsInv(s, es[0]);
      if es[0].Fetch? {
        FetchKeepsInside(s);
        EnsureOpenFrame(s, s.holder.value.process);
      } else if es[0].Write? {
        WriteKeepsInside(s);
      } else {
        QuietKeepsInside(s, es[0]);
      }
      RunKeepsInside(Apply(s, es[0]), es[1..]);
    }
  }

  /** In every run, each transaction record in a file begins below the maximum length. */
  lemma RecordsBeginInside(maxLen: nat, sync: bool, es: seq<Event>, i: nat, k: nat)
    requires ValidRun(Initial(maxLen, sync), es) && i < |Exec(Initial(maxLen, sync), es).placed|
    requires k < |Exec(Initial(maxLen, sync), es).placed[i]|
    ensures var records := Exec(Initial(maxLen, sync), es).placed[i];
      !Padding(records[k].header) ==> |Bytes(records[..k])| < maxLen
  {
    hide Bytes, Inv, Exec, ValidRun;
    InitialInv(maxLen, sync);
    RunKeepsInside(Initial(maxLen, sync), es);
    assert BeginInside(Exec(Initial(maxLen, sync), es).placed[i], maxLen);
  }

  // ---- files have their length from the start

  ghost predicate Extended(s: Log)
  {
    forall n :: n in s.files ==> |s.files[n]| > s.maxLen
  }

  lemma OpeningExtends(s: Log, p: nat)
    requires Extended(s)
    ensures Extended(EnsureOpen(s, p))
  {
    var o := EnsureOpen(s, p);
    forall file ensures |Opened(file, s.maxLen)| > s.maxLen {
      OpenedLength(file, s.maxLen);
    }
    hide Opened;
  }

  lemma OpenedLength(file: seq<uint8>, maxLen: nat)
    ensures |Opened(file, maxLen)| > maxLen
  {
  }

  lemma {:induction false} RunKeepsExtended(s: Log, es: seq<Event>)
    requires Extended(s) && ValidRun(s, es)
    ensures Extended(Exec(s, es)) && Exec(s, es).maxLen == s.maxLen
    decreases |es|
  {
    hide EnsureOpen, Batch, Padded, Bytes, Overwrite, Sealed;
    if es != [] {
      if es[0].Fetch? {
        OpeningExtends(s, s.holder.value.process);
        EnsureOpenFrame(s, s.holder.value.process);
      }
      RunKeepsExtended(Apply(s, es[0]), es[1..]);
    }
  }

  /** In every run, each file is longer than the maximum length from the moment it is there. */
  lemma FilesAreExtended(maxLen: nat, sync: bool, es: seq<Event>, n: nat)
    requires ValidRun(Initial(maxLen, sync), es) && n in Exec(Initial(maxLen, sync), es).files
    ensures |Exec(Initial(maxLen, sync), es).files[n]| > maxLen
  {
    RunKeepsExtended(Initial(maxLen, sync), es);
  }
}
