/**
 The logger's own code over the shared log information and the log directory.  Each stretch of code
 under one mutex is proved to be one event of the group commit protocol, and `log` a run of them.
 */
module LoggerImpl {
  import opened Checksum
  import opened LogFormat
  import opened Os
  import opened Ordered
  import opened GroupCommit
  import opened GroupCommitInvariant
  import opened GroupCommitTheorems
  import GroupCommitFailures

  /** `SharedLogInfo`, with the log directory beside it. */
  class SharedLogInfo {
    var nextLsn: nat
    var lastWriteTxnId: nat
    var lastSyncTxnId: nat
    var waitingTxns: seq<Item>
    var logFilename: Option<nat>
    var logLen: nat
    const logMaxLen: nat
    const logSync: bool
    var directory: map<nat, seq<uint8>>
    ghost var model: Log

    /** The shared fields are those of the protocol state. */
    ghost predicate Shows()
      reads this
    {
      && model.maxLen == logMaxLen && model.sync == logSync
      && model.nextLsn == nextLsn && model.lastWrite == lastWriteTxnId && model.lastSync == lastSyncTxnId
      && model.waiting == waitingTxns
      && model.name == logFilename && model.logLen == logLen && model.files == directory
    }

    ghost predicate Valid()
      reads this
    {
      Shows() && Inv(model)
    }

    constructor (logMaxLen: nat, logSync: bool)
      ensures Valid() && model == Initial(logMaxLen, logSync)
    {
      this.logMaxLen, this.logSync := logMaxLen, logSync;
      nextLsn, lastWriteTxnId, lastSyncTxnId, waitingTxns := 1, 0, 0, [];
      logFilename, logLen, directory := None, 0, map[];
      model := Initial(logMaxLen, logSync);
      InitialInv(logMaxLen, logSync);
    }
  }

  class Logger {
    const shm: SharedLogInfo
    const os: System
    const process: nat
    var myLogFilename: Option<nat>
    var filePointer: nat
    var myFpOffset: nat
    const iov: array<seq<uint8>>
    var paddingHeader: Header
    const paddingBuffer: seq<uint8>

    /** The logger knows the file it has open and where its file pointer is. */
    ghost predicate Valid()
      reads this, shm
    {
      && shm.Valid()
      && myLogFilename == (if process in shm.model.mine then Some(shm.model.mine[process]) else None)
      && filePointer == myFpOffset
      && iov.Length == 2 * (MAX_TXN_PER_WRITE + 1)
      && paddingBuffer == Zeros(ALIGNMENT + HEADER_SIZE)
      && paddingHeader.opCount == 0 && paddingHeader.lsn == 0 && paddingHeader.segmentChecksum == 0
    }

    constructor (shm: SharedLogInfo, os: System, process: nat)
      requires shm.Valid() && process !in shm.model.mine
      ensures Valid() && this.shm == shm && this.os == os && fresh(iov) && myLogFilename == None
    {
      this.shm, this.os, this.process := shm, os, process;
      myLogFilename, filePointer, myFpOffset := None, 0, 0;
      iov := new seq<uint8>[2 * (MAX_TXN_PER_WRITE + 1)](i => []);
      paddingHeader, paddingBuffer := BLANK, Zeros(ALIGNMENT + HEADER_SIZE);
    }

    /** The number of the buffer in the log, or nothing for one that must not be logged. */
    method QueueForCommit(buff: CommitBuffer, ghost thread: nat) returns (lsn: Option<nat>)
      requires Valid() && buff.opCount < 0x1_0000_0000 && |buff.data| < 0x1_0000_0000
      requires shm.nextLsn < 0x7FFF_FFFF_FFFF_FFFF && thread !in shm.model.threads
      modifies shm, buff`header
      ensures Valid()
      ensures lsn.None? <==> buff.data == [] || buff.opCount == 0
      ensures lsn.None? ==> shm.model == old(shm.model) && buff.header == old(buff.header)
      ensures lsn.Some? ==>
        && Enabled(old(shm.model), Queue(thread, buff.opCount as uint32, buff.data))
        && shm.model == Apply(old(shm.model), Queue(thread, buff.opCount as uint32, buff.data))
        && lsn.value == old(shm.nextLsn) && shm.waitingTxns == old(shm.waitingTxns) + [Item(buff.header, buff.data)]
    {
      hide Inv, HeaderSum, Adler32;
      if |buff.data| == 0 || buff.opCount == 0 {
        return None;
      }
      buff.PrepareHeader();
      var n := shm.nextLsn;
      shm.nextLsn := shm.nextLsn + 1;
      buff.FinalizeHeader(n as int64);
      shm.waitingTxns := shm.waitingTxns + [Item(buff.header, buff.data)];
      lsn := Some(n);
      SealUnique(Header(buff.opCount as uint32, |buff.data| as uint32, n as int64, Adler32(buff.data), 0), buff.header);
      ghost var e := Queue(thread, buff.opCount as uint32, buff.data);
      EventKeepsInv(shm.model, e);
      shm.model := Apply(shm.model, e);
    }

    /** `advance_logfile`, called with the file mutex held. */
    method AdvanceLogfile()
      modifies shm`logFilename, shm`logLen
      ensures shm.logFilename == Some(shm.lastWriteTxnId) && shm.logLen == 0
    {
      shm.logFilename := Some(shm.lastWriteTxnId);
      shm.logLen := 0;
    }

    /** `ensure_open_logfile`: opens, or first starts, the current file; a new one gets its length at once. */
    method EnsureOpenLogfile()
      requires Valid()
      modifies this`myLogFilename, this`filePointer, this`myFpOffset, shm`logFilename, shm`logLen, shm`directory
      ensures var o := EnsureOpen(shm.model, process);
        && shm.logFilename == o.name && shm.logLen == o.logLen && shm.directory == o.files
        && myLogFilename == (if process in o.mine then Some(o.mine[process]) else None)
      ensures filePointer == myFpOffset
    {
      hide Inv, Opened;
      if shm.logFilename.None? || shm.logLen >= shm.logMaxLen || shm.logFilename != myLogFilename {
        if shm.logFilename.None? || shm.logLen >= shm.logMaxLen {
          AdvanceLogfile();
        }
        var n := shm.logFilename.value;
        var file := if n in shm.directory then shm.directory[n] else [];
        shm.directory := shm.directory[n := Opened(file, shm.logMaxLen)];
        filePointer := shm.logMaxLen + 1;
        myFpOffset := shm.logMaxLen + 1;
        myLogFilename := shm.logFilename;
      }
    }

    /** The two regions of a transaction: its header and its data. */
    method FillRegions(txnCount: nat, buff: Item)
      requires 2 * txnCount + 1 < iov.Length
      modifies iov
      ensures iov[..2 * (txnCount + 1)] == old(iov[..2 * txnCount]) + [Encode(buff.header), buff.data]
    {
      iov[2 * txnCount] := Encode(buff.header);
      iov[2 * txnCount + 1] := buff.data;
    }

    /** Takes the first buffer from the queue and adds its two regions to those of `batch`. */
    method TakeRegions(txnCount: nat, ghost batch: seq<Item>)
      requires 2 * txnCount + 1 < iov.Length && shm.waitingTxns != []
      requires Concat(iov[..2 * txnCount]) == Bytes(batch)
      modifies shm`waitingTxns, iov
      ensures shm.waitingTxns == old(shm.waitingTxns)[1..]
      ensures var buff := old(shm.waitingTxns)[0];
        && Concat(iov[..2 * (txnCount + 1)]) == Bytes(batch + [buff])
        && |Bytes(batch + [buff])| == |Bytes(batch)| + |Encode(buff.header)| + |buff.data|
    {
      hide Bytes, Concat, Encode;
      var buff := shm.waitingTxns[0];
      OneMore(iov[..2 * txnCount], batch, buff);
      FillRegions(txnCount, buff);
      shm.waitingTxns := shm.waitingTxns[1..];
    }

    /** Takes buffers from the queue into `iov`, header and data of each, as long as limits allow. */
    method FetchBuffers() returns (batch: seq<Item>, maxLsn: nat, newFileLen: nat)
      requires iov.Length == 2 * (MAX_TXN_PER_WRITE + 1)
      modifies shm`waitingTxns, iov
      ensures batch == Batch(old(shm.waitingTxns), shm.logLen, shm.logMaxLen, MAX_TXN_PER_WRITE)
      ensures shm.waitingTxns == old(shm.waitingTxns)[|batch|..]
      ensures maxLsn == if batch == [] then shm.lastWriteTxnId else LsnOf(batch[|batch| - 1])
      ensures newFileLen == shm.logLen + |Bytes(batch)|
      ensures |batch| <= MAX_TXN_PER_WRITE && Concat(iov[..2 * |batch|]) == Bytes(batch)
    {
      hide Fetching, Batch, Bytes, Concat, LsnOf, Encode, Inv, Valid;
      ghost var waiting := shm.waitingTxns;
      batch, maxLsn, newFileLen := [], shm.lastWriteTxnId, shm.logLen;
      var txnCount := 0;
      FetchingStarts(waiting, shm.logLen, shm.logMaxLen);
      assert iov[..0] == [];
      while txnCount < MAX_TXN_PER_WRITE && shm.waitingTxns != [] && newFileLen < shm.logMaxLen
        invariant |batch| == txnCount <= MAX_TXN_PER_WRITE
        invariant Fetching(waiting, shm.waitingTxns, batch, shm.logLen, newFileLen, shm.logMaxLen)
        invariant maxLsn == if batch == [] then shm.lastWriteTxnId else LsnOf(batch[|batch| - 1])
        invariant Concat(iov[..2 * txnCount]) == Bytes(batch)
      {
        FetchingMore(waiting, shm.waitingTxns, batch, shm.logLen, newFileLen, shm.logMaxLen);
        var buff := shm.waitingTxns[0];
        TakeRegions(txnCount, batch);
        newFileLen := newFileLen + |Encode(buff.header)| + |buff.data|;
        maxLsn := LsnOf(buff);
        txnCount := txnCount + 1;
        batch := batch + [buff];
      }
      FetchingEnds(waiting, shm.waitingTxns, batch, shm.logLen, newFileLen, shm.logMaxLen);
    }

    /** One pass, first half: an open file and a batch for it. */
    method Fetch() returns (batch: seq<Item>, maxLsn: nat, newFileLen: nat)
      requires Valid() && Enabled(shm.model, Event.Fetch) && shm.model.holder.value.process == process
      modifies this`myLogFilename, this`filePointer, this`myFpOffset, shm, iov
      ensures Valid() && shm.model == Apply(old(shm.model), Event.Fetch)
      ensures myLogFilename == shm.logFilename
      ensures batch == InFlight(shm.model) && |batch| <= MAX_TXN_PER_WRITE
      ensures maxLsn == if batch == [] then shm.lastWriteTxnId else LsnOf(batch[|batch| - 1])
      ensures newFileLen == shm.logLen + |Bytes(batch)| && Concat(iov[..2 * |batch|]) == Bytes(batch)
    {
      hide Inv, Batch, EnsureOpen, Bytes, Concat, LsnOf;
      ghost var s := shm.model;
      OpenedHere(s, process);
      EventKeepsInv(s, Event.Fetch);
      EnsureOpenFrame(s, process);
      EnsureOpenLogfile();
      batch, maxLsn, newFileLen := FetchBuffers();
      shm.model := Apply(s, Event.Fetch);
    }

    /** Fills the last sector with a padding record behind the transactions in `iov`. */
    method Pad(batch: seq<Item>, len: nat) returns (bufferCount: nat, newFileLen: nat)
      requires iov.Length == 2 * (MAX_TXN_PER_WRITE + 1) && |batch| <= MAX_TXN_PER_WRITE
      requires paddingBuffer == Zeros(ALIGNMENT + HEADER_SIZE)
      requires paddingHeader.opCount == 0 && paddingHeader.lsn == 0 && paddingHeader.segmentChecksum == 0
      requires Concat(iov[..2 * |batch|]) == Bytes(batch)
      modifies this`paddingHeader, iov
      ensures paddingHeader.opCount == 0 && paddingHeader.lsn == 0 && paddingHeader.segmentChecksum == 0
      ensures bufferCount <= iov.Length && newFileLen == len + |Bytes(Padded(len, batch))|
      ensures Concat(iov[..bufferCount]) == Bytes(Padded(len, batch))
    {
      hide HeaderSum, Seal, Encode, Bytes, Concat, Padded, PaddingFor;
      var txnCount := |batch|;
      bufferCount, newFileLen := 2 * txnCount, len + |Bytes(batch)|;
      var padding := if newFileLen % ALIGNMENT != 0 then ALIGNMENT - newFileLen % ALIGNMENT else 0;
      if padding != 0 && padding < HEADER_SIZE {
        padding := padding + ALIGNMENT;
      }
      assert padding == PaddingLength(newFileLen);
      PaddedParts(len, batch);
      if padding != 0 {
        paddingHeader := Finalize(paddingHeader.(segmentSize := (padding - HEADER_SIZE) as uint32));
        SealUnique(Header(0, (padding - HEADER_SIZE) as uint32, 0, 0, 0), paddingHeader);
        ghost var before := iov[..bufferCount];
        assert paddingBuffer[..padding - HEADER_SIZE] == Zeros(padding - HEADER_SIZE);
        iov[2 * txnCount] := Encode(paddingHeader);
        bufferCount := bufferCount + 1;
        if padding - HEADER_SIZE > 0 {
          iov[2 * txnCount + 1] := paddingBuffer[..padding - HEADER_SIZE];
          bufferCount := bufferCount + 1;
          assert iov[..bufferCount] == before + [Encode(paddingHeader), Zeros(padding - HEADER_SIZE)];
        } else {
          assert iov[..bufferCount] == before + [Encode(paddingHeader)];
        }
        newFileLen := newFileLen + padding;
        PaddingRegions(before, batch, paddingHeader, padding);
      }
    }

    /** Writes the first regions of `iov` at `logLen`, wherever the file pointer was. */
    method WriteRegions(bufferCount: nat, newFileLen: nat) returns (ok: bool)
      requires shm.logFilename.Some? && shm.logFilename.value in shm.directory
      requires filePointer == myFpOffset && bufferCount <= iov.Length
      requires shm.logLen <= |shm.directory[shm.logFilename.value]|
      modifies this`filePointer, this`myFpOffset, shm`directory, iov, os
      ensures ok ==> filePointer == myFpOffset == newFileLen
      ensures ok ==> var n := shm.logFilename.value;
        shm.directory == old(shm.directory)[n := Overwrite(old(shm.directory[n]), shm.logLen, Concat(old(iov[..bufferCount])))]
      ensures !ok ==> Failed in old(os.script)
      ensures !ok ==> exists k: nat :: Cut(old(shm.directory), shm.directory, shm.logFilename.value, shm.logLen,
                                           Concat(old(iov[..bufferCount])), k)
      ensures forall a :: a in os.script ==> a in old(os.script)
    {
      hide Concat, Overwrite;
      if myFpOffset != shm.logLen {
        filePointer := shm.logLen;
      }
      var n, after := shm.logFilename.value, [];
      ok, after := GatheredWriteFile(os, shm.directory[n], filePointer, iov, bufferCount);
      shm.directory := shm.directory[n := after];
      if ok {
        filePointer := newFileLen;
        myFpOffset := newFileLen;
      } else {
        ghost var all := Concat(old(iov[..bufferCount]));
        ghost var k :| 0 <= k <= |all| && after == Overwrite(old(shm.directory)[n], shm.logLen, all[..k]);
        assert Cut(old(shm.directory), shm.directory, n, shm.logLen, all, k);
      }
    }

    /** One pass, second half: the padded batch goes to the end of the data in the file. */
    method PadAndWrite(batch: seq<Item>, maxLsn: nat) returns (ok: bool)
      requires Valid() && Enabled(shm.model, Event.Write) && batch == InFlight(shm.model)
      requires myLogFilename == shm.logFilename && |batch| <= MAX_TXN_PER_WRITE
      requires maxLsn == if batch == [] then shm.lastWriteTxnId else LsnOf(batch[|batch| - 1])
      requires Concat(iov[..2 * |batch|]) == Bytes(batch)
      modifies this`paddingHeader, this`filePointer, this`myFpOffset, shm, iov, os
      ensures ok ==> Valid() && shm.model == Apply(old(shm.model), Event.Write) && myLogFilename == shm.logFilename
      ensures !ok ==> Failed in old(os.script) && shm.Shows() && FailedWrite(old(shm.model), shm.model)
      ensures forall a :: a in os.script ==> a in old(os.script)
    {
      hide Inv, Bytes, Concat, LsnOf, Padded, Overwrite, Cut, FailedWrite;
      ghost var s := shm.model;
      var bufferCount, newFileLen := Pad(batch, shm.logLen);
      ok := WriteRegions(bufferCount, newFileLen);
      if !ok {
        ghost var all := Bytes(Padded(s.logLen, batch));
        ghost var k: nat :| Cut(s.files, shm.directory, s.name.value, s.logLen, all, k);
        shm.model := BrokenHere(s, shm.directory, k);
        return;
      }
      shm.lastWriteTxnId := maxLsn;
      shm.logLen := newFileLen;
      EventKeepsInv(s, Event.Write);
      shm.model := Apply(s, Event.Write);
    }

    /** `sync_log`: everything written so far is on the disk. */
    method SyncLog()
      modifies shm`lastSyncTxnId
      ensures shm.lastSyncTxnId == if old(shm.lastSyncTxnId) < shm.lastWriteTxnId then shm.lastWriteTxnId else old(shm.lastSyncTxnId)
    {
      var newSyncTxnId := shm.lastWriteTxnId;
      if shm.lastSyncTxnId < newSyncTxnId {
        shm.lastSyncTxnId := newSyncTxnId;
      }
    }

    /** The thread takes the file mutex. */
    ghost method TakeFileMutex(thread: nat)
      requires Valid() && Enabled(shm.model, Enter(thread, process))
      modifies shm`model
      ensures Valid() && shm.model == Apply(old(shm.model), Enter(thread, process))
      ensures shm.model.holder == Some(Holder(thread, process, old(shm.model.threads[thread]), None))
    {
      EventKeepsInv(shm.model, Enter(thread, process));
      shm.model := Apply(shm.model, Enter(thread, process));
    }

    /** The end of `log`: sync if that is asked for and not done yet, and release the file mutex. */
    method SyncAndLeave(myCommitSeq: nat)
      requires Valid() && Enabled(shm.model, Leave) && shm.model.holder.value.lsn == myCommitSeq
      modifies shm
      ensures Valid() && shm.model == Apply(old(shm.model), Leave)
    {
      hide Inv;
      EventKeepsInv(shm.model, Leave);
      if shm.lastSyncTxnId < myCommitSeq && shm.logSync {
        SyncLog();
      }
      shm.model := Apply(shm.model, Leave);
    }

    /**
     `log`: unless the system fails a write, it ends, as a run of the protocol, with the caller's
     buffer written and, if asked for, synced.  A failed write leaves what the run had done before it, and
     a part of the batch in the file, which nothing has been noted of.
     */
    method Log(myCommitSeq: nat, ghost thread: nat) returns (ok: bool, ghost es: seq<Event>)
      requires Valid() && shm.logMaxLen > 0
      requires Enabled(shm.model, Enter(thread, process)) && shm.model.threads[thread] == myCommitSeq
      modifies this`myLogFilename, this`paddingHeader, this`filePointer, this`myFpOffset, shm, iov, os
      ensures !ok ==>
        && Failed in old(os.script) && shm.Shows()
        && ValidRun(old(shm.model), es) && FailedWrite(Exec(old(shm.model), es), shm.model)
      ensures ok ==>
        && Valid() && ValidRun(old(shm.model), es) && shm.model == Exec(old(shm.model), es)
        && shm.lastWriteTxnId >= myCommitSeq && (shm.logSync ==> shm.lastSyncTxnId >= myCommitSeq)
        && thread in shm.model.returned
    {
      hide Inv, Apply, Exec, ValidRun, LsnOf, Bytes, Concat, FailedWrite;
      ghost var start := shm.model;
      Begins(start, Enter(thread, process));
      TakeFileMutex(thread);
      es := [Enter(thread, process)];
      while shm.lastWriteTxnId < myCommitSeq
        invariant Valid() && shm.model.holder == Some(Holder(thread, process, myCommitSeq, None))
        invariant ValidRun(start, es) && shm.model == Exec(start, es)
        invariant forall a :: a in os.script ==> a in old(os.script)
        decreases myCommitSeq - shm.lastWriteTxnId
      {
        ghost var s := shm.model;
        FetchReady(s);
        var batch, maxLsn, newFileLen := Fetch();
        WriteEnds(s);
        Continues(start, es, Event.Fetch);
        es := es + [Event.Fetch];
        ok := PadAndWrite(batch, maxLsn);
        if !ok {
          return;
        }
        Continues(start, es, Event.Write);
        es := es + [Event.Write];
      }
      Continues(start, es, Leave);
      LeaveEnds(shm.model);
      SyncAndLeave(myCommitSeq);
      es := es + [Leave];
      ok := true;
    }
  }

  /** The first `k` bytes of `all` have reached file `n` of the directory. */
  ghost predicate Cut(before: map<nat, seq<uint8>>, after: map<nat, seq<uint8>>, n: nat, pos: nat, all: seq<uint8>, k: nat)
  {
    && n in before && pos <= |before[n]| && k <= |all|
    && after == before[n := Overwrite(before[n], pos, all[..k])]
  }

  /** From `s` to `after` by a write that stopped early. */
  ghost predicate FailedWrite(s: Log, after: Log)
  {
    && Enabled(s, Event.Write)
    && exists k: nat :: k <= |GroupCommitFailures.PaddedBytes(s)| && after == GroupCommitFailures.Broken(s, k)
  }

  ghost function BrokenHere(s: Log, directory: map<nat, seq<uint8>>, k: nat): (after: Log)
    requires Enabled(s, Event.Write)
    requires Cut(s.files, directory, s.name.value, s.logLen, Bytes(Padded(s.logLen, InFlight(s))), k)
    ensures FailedWrite(s, after) && after == s.(files := directory, holder := None)
  {
    hide Bytes, Padded, Overwrite;
    GroupCommitFailures.Broken(s, k)
  }

  lemma SealUnique(h: Header, sealed: Header)
    requires Finalized(sealed) && sealed == h.(headerChecksum := sealed.headerChecksum)
    ensures sealed == Seal(h)
  {
    assert sealed.(headerChecksum := 0) == h.(headerChecksum := 0);
  }

  /** The loop has taken `batch`, leaving `rest`; what it still takes completes the batch of the protocol. */
  ghost predicate Fetching(waiting: seq<Item>, rest: seq<Item>, batch: seq<Item>, start: nat, len: nat, maxLen: nat)
  {
    && waiting == batch + rest && |batch| <= MAX_TXN_PER_WRITE
    && len == start + |Bytes(batch)|
    && Batch(waiting, start, maxLen, MAX_TXN_PER_WRITE) == batch + Batch(rest, len, maxLen, MAX_TXN_PER_WRITE - |batch|)
  }

  lemma FetchingStarts(waiting: seq<Item>, start: nat, maxLen: nat)
    ensures Fetching(waiting, waiting, [], start, start, maxLen)
    ensures Bytes([]) == [] && Concat([]) == []
  {
    hide Batch;
  }

  lemma FetchingMore(waiting: seq<Item>, rest: seq<Item>, batch: seq<Item>, start: nat, len: nat, maxLen: nat)
    requires Fetching(waiting, rest, batch, start, len, maxLen)
    requires |batch| < MAX_TXN_PER_WRITE && rest != [] && len < maxLen
    ensures Fetching(waiting, rest[1..], batch + [rest[0]], start, len + |Encode(rest[0].header)| + |rest[0].data|, maxLen)
  {
    hide Batch, Bytes, Encode;
    OneMoreLength(batch, rest[0]);
    BatchStep(batch, rest, len, maxLen, MAX_TXN_PER_WRITE - |batch|);
    assert batch + rest == (batch + [rest[0]]) + rest[1..];
  }

  lemma BatchStep(batch: seq<Item>, rest: seq<Item>, len: nat, maxLen: nat, n: nat)
    requires n > 0 && rest != [] && len < maxLen
    ensures batch + Batch(rest, len, maxLen, n)
            == (batch + [rest[0]]) + Batch(rest[1..], len + |Encode(rest[0].header)| + |rest[0].data|, maxLen, n - 1)
  {
    hide Encode;
  }

  lemma OneMoreLength(batch: seq<Item>, i: Item)
    ensures |Bytes(batch + [i])| == |Bytes(batch)| + |Encode(i.header)| + |i.data|
  {
    hide Encode;
    BytesConcat(batch, [i]);
    assert [i][1..] == [] && Bytes([i]) == ItemBytes(i) + Bytes([]);
  }

  lemma FetchingEnds(waiting: seq<Item>, rest: seq<Item>, batch: seq<Item>, start: nat, len: nat, maxLen: nat)
    requires Fetching(waiting, rest, batch, start, len, maxLen)
    requires |batch| == MAX_TXN_PER_WRITE || rest == [] || len >= maxLen
    ensures batch == Batch(waiting, start, maxLen, MAX_TXN_PER_WRITE) && rest == waiting[|batch|..]
    ensures len == start + |Bytes(batch)|
  {
    hide Bytes;
  }

  lemma OneMore(regions: seq<seq<uint8>>, batch: seq<Item>, i: Item)
    requires Concat(regions) == Bytes(batch)
    ensures Concat(regions + [Encode(i.header), i.data]) == Bytes(batch + [i])
    ensures |Bytes(batch + [i])| == |Bytes(batch)| + |Encode(i.header)| + |i.data|
  {
    ConcatSplit(regions, [Encode(i.header), i.data]);
    BytesConcat(batch, [i]);
    TwoRegions(Encode(i.header), i.data);
    OneMoreLength(batch, i);
    assert [i][1..] == [] && Bytes([i]) == ItemBytes(i) + Bytes([]);
  }

  lemma TwoRegions(a: seq<uint8>, b: seq<uint8>)
    ensures Concat([a]) == a && Concat([a, b]) == a + b
  {
    assert [a, b][1..] == [b] && [b][1..] == [] && [a][1..] == [];
    assert Concat([b]) == b + Concat([]);
  }

  lemma OpenedHere(s: Log, p: nat)
    requires Inv(s) && Enabled(s, Event.Fetch)
    ensures var o := EnsureOpen(s, p);
      o.name.Some? && p in o.mine && o.mine[p] == o.name.value
  {
  }

  lemma PaddedParts(len: nat, batch: seq<Item>)
    ensures var p := PaddingLength(len + |Bytes(batch)|);
      && (p == 0 || HEADER_SIZE <= p < ALIGNMENT + HEADER_SIZE)
      && Bytes(Padded(len, batch)) == Bytes(batch) + Bytes(PaddingFor(p))
      && (p == 0 ==> Bytes(Padded(len, batch)) == Bytes(batch))
  {
    hide HeaderSum, ItemBytes, Seal;
    var p := PaddingLength(len + |Bytes(batch)|);
    PaddingAligns(len + |Bytes(batch)|);
    BytesConcat(batch, PaddingFor(p));
  }

  lemma PaddingRegions(regions: seq<seq<uint8>>, batch: seq<Item>, h: Header, p: nat)
    requires HEADER_SIZE <= p < ALIGNMENT + HEADER_SIZE && Concat(regions) == Bytes(batch)
    requires h == Seal(Header(0, (p - HEADER_SIZE) as uint32, 0, 0, 0))
    ensures Concat(regions + [Encode(h), Zeros(p - HEADER_SIZE)]) == Bytes(batch) + Bytes(PaddingFor(p))
    ensures p == HEADER_SIZE ==> Concat(regions + [Encode(h)]) == Bytes(batch) + Bytes(PaddingFor(p))
    ensures |Bytes(PaddingFor(p))| == p
  {
    hide HeaderSum, Seal, Encode;
    var zeros := Zeros(p - HEADER_SIZE);
    ConcatSplit(regions, [Encode(h), zeros]);
    ConcatSplit(regions, [Encode(h)]);
    TwoRegions(Encode(h), zeros);
    assert [Item(h, zeros)][1..] == [];
    assert Bytes([Item(h, zeros)]) == Encode(h) + zeros + Bytes([]);
  }

  lemma Begins(s: Log, e: Event)
    requires Enabled(s, e)
    ensures ValidRun(s, [e]) && Exec(s, [e]) == Apply(s, e)
  {
    hide Apply, Enabled;
    assert [e][1..] == [];
  }

  lemma {:induction false} Continues(s: Log, es: seq<Event>, e: Event)
    requires ValidRun(s, es) && Enabled(Exec(s, es), e)
    ensures ValidRun(s, es + [e]) && Exec(s, es + [e]) == Apply(Exec(s, es), e)
    decreases |es|
  {
    hide Apply, Enabled;
    if es == [] {
      assert [] + [e] == [e];
      Begins(s, e);
    } else {
      assert (es + [e])[1..] == es[1..] + [e];
      Continues(Apply(s, es[0]), es[1..], e);
    }
  }

  lemma FetchReady(s: Log)
    requires s.holder.Some? && s.holder.value.batch.None? && s.lastWrite < s.holder.value.lsn
    ensures Enabled(s, Event.Fetch)
  {
  }

  lemma WriteReady(s: Log)
    requires Inv(s) && s.holder.Some? && s.holder.value.batch.Some?
    ensures Enabled(s, Event.Write)
  {
    HolderHasStep(s);
  }

  /** A whole pass leaves the thread inside `log`, nearer to its LSN. */
  lemma WriteEnds(s: Log)
    requires Inv(s) && Enabled(s, Event.Fetch) && s.maxLen > 0
    ensures var f := Apply(s, Event.Fetch);
      && Inv(f) && Enabled(f, Event.Write)
      && Apply(f, Event.Write).holder == s.holder && Apply(f, Event.Write).lastWrite > s.lastWrite
  {
    hide Inv, EnsureOpen, Batch, Padded, Overwrite, Bytes, LsnOf;
    EventKeepsInv(s, Event.Fetch);
    EnsureOpenFrame(s, s.holder.value.process);
    var f := Apply(s, Event.Fetch);
    PassTakesSome(s);
    WriteReady(f);
    WriteIsProgress(f);
  }

  lemma LeaveEnds(s: Log)
    requires Enabled(s, Leave) && s.holder.Some?
    ensures var s' := Apply(s, Leave);
      && s.holder.value.thread in s'.returned && s'.lastWrite == s.lastWrite >= s.holder.value.lsn
      && (s.sync ==> s'.lastSync >= s.holder.value.lsn)
  {
  }
}
