/**
 Group commit as a protocol: any number of threads queue commit buffers and call `log`; the holder of
 the file mutex writes whole batches; a checkpoint may start a new log file between two holders.
 */
module GroupCommit {
  import opened Checksum
  import opened LogFormat
  import opened Os
  import opened Ordered

  const MAX_TXN_PER_WRITE: nat := 7
  const ALIGNMENT: nat := 512

  /** The thread inside `log`, its process, the LSN it waits for and the buffers fetched but not yet written. */
  datatype Holder = Holder(thread: nat, process: nat, lsn: nat, batch: Option<seq<Item>>)

  /**
   Threads map to the LSN they queued; `mine` is the file each process has open.  `queued`, `names`
   and `placed` are history that no event reads: all buffers in queue order, the files in the order
   of their creation, and the records in each of them.
   */
  datatype Log = Log(
    maxLen: nat, sync: bool,
    nextLsn: nat, lastWrite: nat, lastSync: nat, waiting: seq<Item>,
    name: Option<nat>, logLen: nat, files: map<nat, seq<uint8>>, mine: map<nat, nat>,
    holder: Option<Holder>, threads: map<nat, nat>, returned: set<nat>,
    queued: seq<Item>, names: seq<nat>, placed: seq<seq<Item>>)

  datatype Event =
    | Queue(thread: nat, opCount: uint32, data: seq<uint8>)
    | Enter(thread: nat, process: nat)
    | Fetch
    | Write
    | Leave
    | Roll

  function Initial(maxLen: nat, sync: bool): Log
  {
    Log(maxLen, sync, 1, 0, 0, [], None, 0, map[], map[], None, map[], {}, [], [], [])
  }

  predicate Idle(s: Log)
  {
    s.holder.Some? && s.holder.value.batch.None?
  }

  predicate Enabled(s: Log, e: Event)
  {
    match e
    case Queue(t, opCount, data) =>
      t !in s.threads && 0 < |data| < 0x1_0000_0000 && opCount > 0 && s.nextLsn < 0x7FFF_FFFF_FFFF_FFFF
    case Enter(t, p) => s.holder.None? && t in s.threads && t !in s.returned
    case Fetch => Idle(s) && s.lastWrite < s.holder.value.lsn
    case Write => s.holder.Some? && s.holder.value.batch.Some? && s.name.Some? && s.name.value in s.files
                  && s.logLen <= |s.files[s.name.value]|
    case Leave => Idle(s) && s.lastWrite >= s.holder.value.lsn
    case Roll => s.holder.None?
  }

  // ---- queue_for_commit

  function Seal(h: Header): (sealed: Header)
    ensures Finalized(sealed) && sealed == h.(headerChecksum := sealed.headerChecksum)
  {
    h.(headerChecksum := HeaderSum(h))
  }

  function Sealed(opCount: uint32, data: seq<uint8>, lsn: nat): Item
    requires |data| < 0x1_0000_0000 && lsn < 0x8000_0000_0000_0000
  {
    Item(Seal(Header(opCount, |data| as uint32, lsn as int64, Adler32(data), 0)), data)
  }

  // ---- ensure_open_logfile

  predicate MustRoll(s: Log)
  {
    s.name.None? || s.logLen >= s.maxLen
  }

  /** A file after it has been opened: a zero byte is written at `maxLen`, with a hole before it. */
  function Opened(file: seq<uint8>, maxLen: nat): seq<uint8>
  {
    var long := if |file| < maxLen then file + Zeros(maxLen - |file|) else file;
    Overwrite(long, maxLen, [0])
  }

  function FileOr(files: map<nat, seq<uint8>>, n: nat): seq<uint8>
  {
    if n in files then files[n] else []
  }

  function Rolled(s: Log): Log
  {
    s.(name := Some(s.lastWrite), logLen := 0)
  }

  function OpenFile(s: Log, p: nat): Log
    requires s.name.Some?
  {
    var n := s.name.value;
    s.(files := s.files[n := Opened(FileOr(s.files, n), s.maxLen)], mine := s.mine[p := n],
       names := if n in s.files then s.names else s.names + [n],
       placed := if n in s.files then s.placed else s.placed + [[]])
  }

  function EnsureOpen(s: Log, p: nat): Log
  {
    if MustRoll(s) then OpenFile(Rolled(s), p)
    else if p in s.mine && s.mine[p] == s.name.value then s
    else OpenFile(s, p)
  }

  // ---- one pass of the loop of `log`

  /** The buffers taken from the queue: up to `n` of them, while the file is not full. */
  function Batch(waiting: seq<Item>, len: nat, maxLen: nat, n: nat): (b: seq<Item>)
    ensures b <= waiting
    decreases n
  {
    if n == 0 || waiting == [] || len >= maxLen then []
    else [waiting[0]] + Batch(waiting[1..], len + |ItemBytes(waiting[0])|, maxLen, n - 1)
  }

  function PaddingLength(len: nat): nat
  {
    var p := if len % ALIGNMENT != 0 then ALIGNMENT - len % ALIGNMENT else 0;
    if p != 0 && p < HEADER_SIZE then p + ALIGNMENT else p
  }

  /** The padding record that fills `p` bytes. */
  function PaddingFor(p: nat): (items: seq<Item>)
    requires p == 0 || HEADER_SIZE <= p < 0x1_0000_0000
  {
    if p == 0 then []
    else [Item(Seal(Header(0, (p - HEADER_SIZE) as uint32, 0, 0, 0)), Zeros(p - HEADER_SIZE))]
  }

  function Padded(len: nat, batch: seq<Item>): seq<Item>
  {
    batch + PaddingFor(PaddingLength(len + |Bytes(batch)|))
  }

  function Append(placed: seq<seq<Item>>, items: seq<Item>): seq<seq<Item>>
  {
    if placed == [] then [items] else placed[|placed| - 1 := placed[|placed| - 1] + items]
  }

  function Written(s: Log): Log
    requires Enabled(s, Write)
  {
    var batch := s.holder.value.batch.value;
    var items := Padded(s.logLen, batch);
    s.(files := s.files[s.name.value := Overwrite(s.files[s.name.value], s.logLen, Bytes(items))],
       logLen := s.logLen + |Bytes(items)|,
       lastWrite := if batch == [] then s.lastWrite else LsnOf(batch[|batch| - 1]),
       holder := Some(s.holder.value.(batch := None)),
       placed := Append(s.placed, items))
  }

  function LsnOf(i: Item): nat
  {
    if i.header.lsn < 0 then 0 else i.header.lsn as nat
  }

  function Fetched(s: Log): Log
    requires Enabled(s, Fetch)
  {
    var o := EnsureOpen(s, s.holder.value.process);
    var batch := Batch(o.waiting, o.logLen, o.maxLen, MAX_TXN_PER_WRITE);
    o.(waiting := o.waiting[|batch|..], holder := Some(s.holder.value.(batch := Some(batch))))
  }

  function Apply(s: Log, e: Event): Log
    requires Enabled(s, e)
  {
    match e
    case Queue(t, opCount, data) =>
      var item := Sealed(opCount, data, s.nextLsn);
      s.(nextLsn := s.nextLsn + 1, waiting := s.waiting + [item], queued := s.queued + [item],
         threads := s.threads[t := s.nextLsn])
    case Enter(t, p) => s.(holder := Some(Holder(t, p, s.threads[t], None)))
    case Fetch => Fetched(s)
    case Write => Written(s)
    case Leave =>
      s.(lastSync := if s.lastSync < s.holder.value.lsn && s.sync then s.lastWrite else s.lastSync,
         holder := None, returned := s.returned + {s.holder.value.thread})
    case Roll => Rolled(s)
  }

  predicate ValidRun(s: Log, es: seq<Event>)
    decreases |es|
  {
    es == [] || (Enabled(s, es[0]) && ValidRun(Apply(s, es[0]), es[1..]))
  }

  function Exec(s: Log, es: seq<Event>): Log
    requires ValidRun(s, es)
    decreases |es|
  {
    if es == [] then s else Exec(Apply(s, es[0]), es[1..])
  }

  // ---- the invariant

  function InFlight(s: Log): seq<Item>
  {
    if s.holder.Some? && s.holder.value.batch.Some? then s.holder.value.batch.value else []
  }

  /** LSNs follow the queue order from 1, and every queued buffer is a sound record. */
  ghost predicate Numbered(s: Log)
  {
    && s.nextLsn == |s.queued| + 1
    && forall i :: 0 <= i < |s.queued| ==> s.queued[i].header.lsn as int == i + 1 && TxnItem(s.queued[i])
  }

  /** Written, in flight, waiting: the queued buffers in this order, each in exactly one place. */
  ghost predicate Split(s: Log)
  {
    && s.lastWrite + |InFlight(s)| <= |s.queued|
    && InFlight(s) == s.queued[s.lastWrite..s.lastWrite + |InFlight(s)|]
    && s.waiting == s.queued[s.lastWrite + |InFlight(s)|..]
  }

  /** Where file number `i` stops: at the name of the next one. */
  function Upper(s: Log, i: nat): nat
    requires i < |s.names|
  {
    if i + 1 < |s.names| then s.names[i + 1] else s.lastWrite
  }

  /** A file named `n` holds exactly the queued buffers with LSNs from `n + 1` to `upper`, then zeros. */
  ghost predicate Holds(n: nat, upper: nat, items: seq<Item>, file: seq<uint8>, queued: seq<Item>)
  {
    && n <= upper <= |queued|
    && Txns(items) == queued[n..upper]
    && WellFormed(items)
    && (Txns(items) == [] ==> items == [])
    && |Bytes(items)| % ALIGNMENT == 0
    && |Bytes(items)| <= |file|
    && file == Bytes(items) + Zeros(|file| - |Bytes(items)|)
  }

  ghost predicate FileHolds(s: Log, i: nat)
    requires i < |s.names| == |s.placed|
  {
    s.names[i] in s.files && Holds(s.names[i], Upper(s, i), s.placed[i], s.files[s.names[i]], s.queued)
  }

  ghost predicate Ascending(names: seq<nat>)
  {
    forall i, j :: 0 <= i < j < |names| ==> names[i] < names[j]
  }

  ghost predicate Listed(names: seq<nat>, files: map<nat, seq<uint8>>)
  {
    Ascending(names) && forall n :: n in files <==> n in names
  }

  ghost predicate Directory(s: Log)
  {
    && |s.names| == |s.placed|
    && Listed(s.names, s.files)
    && (forall i :: 0 <= i < |s.names| ==> FileHolds(s, i))
  }

  /** The current file is the last one, or is not there yet and will be. */
  ghost predicate Current(s: Log)
  {
    && |s.names| == |s.placed|
    && (s.name.None? ==> s.names == [] && s.logLen == 0 && s.lastWrite == 0)
    && (s.name.Some? && s.name.value in s.files ==>
          s.names != [] && s.names[|s.names| - 1] == s.name.value && s.logLen == |Bytes(s.placed[|s.names| - 1])|)
    && (s.name.Some? && s.name.value !in s.files ==> s.name.value == s.lastWrite && s.logLen == 0)
    && (s.holder.Some? && s.holder.value.batch.Some? ==> s.name.Some? && s.name.value in s.files)
    && (forall p :: p in s.mine ==> s.mine[p] in s.files)
    && (s.names != [] ==> s.names[0] == 0)
    && (s.lastWrite > 0 ==> s.names != [])
  }

  ghost predicate Served(s: Log)
  {
    && s.lastSync <= s.lastWrite
    && (forall t :: t in s.threads ==> 1 <= s.threads[t] <= |s.queued|)
    && (s.holder.Some? ==> s.holder.value.thread in s.threads && s.holder.value.thread !in s.returned
                           && s.threads[s.holder.value.thread] == s.holder.value.lsn)
    && (s.maxLen > 0 && s.holder.Some? && s.holder.value.batch.Some? ==>
          s.holder.value.batch.value != [] && s.lastWrite < s.holder.value.lsn)
    && (forall t :: t in s.returned ==>
          t in s.threads && s.threads[t] <= s.lastWrite && (s.sync ==> s.threads[t] <= s.lastSync))
  }

  ghost predicate Inv(s: Log)
  {
    Numbered(s) && Split(s) && Directory(s) && Current(s) && Served(s)
  }
}
