/**
 The copy-on-write checkpoint of a mapped region, as a protocol between the threads that write to
 the region, the fault handler those writes enter, and the background copier.

 Everything one thread does under one mutex, or in one system call, is one event.  A run is any
 sequence of enabled events, so every interleaving of the threads is covered.
 */
module SnapshotProtocol {
  import opened Ordered
  import opened PageMap

  const MUTEX_COUNT: nat := 111

  type Page = seq<bv8>

  /** `region_change_info`; `pages` is `modified_pages[0 .. modified_pages_count]`. */
  datatype Changes = Changes(bits: seq<bool>, pages: seq<nat>, ckptWritten: nat, demandWritten: nat)

  /** Where a writer thread is: outside a transaction, inside one, or in the fault handler for a page. */
  datatype Pc =
    | Idle
    | InTxn
    | Peek(page: nat)
    | WantLock(page: nat)
    | Copying(page: nat, dest: nat)
    | Mark(page: nat)
    | Unprotect(page: nat)

  datatype Copier = Resting | At(entry: nat) | CopyingEntry(entry: nat, dest: nat)

  /** What the proofs remember of the run; no event reads it. */
  datatype History = History(
    snapshot: seq<Page>,       // the region at the last swap
    last: seq<nat>,            // the page locations at the last completion
    lastSnapshot: seq<Page>,   // what the checkpoint held then
    copied: set<int>,          // pages given a new place since that completion
    written: set<int>,         // pages ever stored to
    writtenAtSwap: set<int>)

  datatype State = State(
    region: seq<Page>,
    file: seq<Page>,
    info: Info,
    cur: Changes,
    inprog: Changes,
    writable: seq<bool>,
    threads: map<nat, Pc>,
    copier: Copier,
    failed: bool,              // an allocation found no free page, an index was out of range or a BOOST_VERIFY failed
    h: History)

  datatype Event =
    | Begin(t: nat)
    | End(t: nat)
    | Store(t: nat, p: nat, v: Page)
    | Fault(t: nat, p: nat)
    | PeekBit(t: nat)
    | Lock(t: nat)
    | FinishCopy(t: nat)
    | MarkDirty(t: nat)
    | LiftProtection(t: nat)
    | Swap
    | CopierLock
    | CopierFinish
    | Complete

  function PcOf(s: State, t: nat): Pc
  {
    if t in s.threads then s.threads[t] else Idle
  }

  function Goto(s: State, t: nat, pc: Pc): State
  {
    s.(threads := s.threads[t := pc])
  }

  /** Thread `t` is copying a page guarded by mutex `m` of the in-progress record, so it holds `m`. */
  predicate ThreadHolds(s: State, t: nat, m: nat)
  {
    PcOf(s, t).Copying? && PcOf(s, t).page % MUTEX_COUNT == m
  }

  predicate CopierHolds(s: State, m: nat)
  {
    s.copier.CopyingEntry? && s.copier.entry < |s.inprog.pages| && s.inprog.pages[s.copier.entry] % MUTEX_COUNT == m
  }

  predicate Busy(s: State, m: nat)
  {
    CopierHolds(s, m) || exists t :: t in s.threads && ThreadHolds(s, t, m)
  }

  ghost predicate Enabled(s: State, e: Event)
  {
    match e
    case Begin(t) => PcOf(s, t).Idle?
    case End(t) => PcOf(s, t).InTxn?
    case Store(t, p, v) => PcOf(s, t).InTxn? && p < |s.region| == |s.writable| && s.writable[p]
    case Fault(t, p) => PcOf(s, t).InTxn? && p < |s.region| == |s.writable| && !s.writable[p]
    case PeekBit(t) => PcOf(s, t).Peek?
    case Lock(t) => PcOf(s, t).WantLock? && !Busy(s, PcOf(s, t).page % MUTEX_COUNT)
    case FinishCopy(t) => PcOf(s, t).Copying?
    case MarkDirty(t) => PcOf(s, t).Mark?
    case LiftProtection(t) => PcOf(s, t).Unprotect?
    case Swap => s.copier.Resting? && forall t :: t in s.threads ==> s.threads[t].Idle?
    case CopierLock =>
      && s.copier.At? && s.copier.entry < |s.inprog.pages|
      && !Busy(s, s.inprog.pages[s.copier.entry] % MUTEX_COUNT)
    case CopierFinish => s.copier.CopyingEntry?
    case Complete => s.copier.At? && s.copier.entry >= |s.inprog.pages|
  }

  ghost predicate CanPlace(s: State, p: nat)
  {
    && s.info.free != {}
    && p < |s.info.locs| == |s.info.content|
    && (s.info.locs[p] != NULL_PAGE ==> s.info.locs[p] < |s.info.content|)
    && 0 <= Closest(s.info.free, p) < |s.info.content|
  }

  /** `allocate` for page `p`, as both the handler and the copier call it. */
  ghost function Place(s: State, p: nat): State
    requires CanPlace(s, p)
  {
    s.(info := Allocated(s.info, p, Closest(s.info.free, p)), h := s.h.(copied := s.h.copied + {p}))
  }

  /** `copy_to_checkpoint`, then the page's in-progress bit is cleared. */
  function Copied(s: State, p: nat, dest: nat): State
    requires p < |s.region| && dest < |s.file| && p < |s.inprog.bits|
  {
    s.(file := s.file[dest := s.region[p]], inprog := s.inprog.(bits := s.inprog.bits[p := false]))
  }

  ghost function Apply(s: State, e: Event): State
    requires Enabled(s, e)
  {
    match e
    case Begin(t) => Goto(s, t, InTxn)
    case End(t) => Goto(s, t, Idle)
    case Store(t, p, v) => s.(region := s.region[p := v], h := s.h.(written := s.h.written + {p}))
    case Fault(t, p) => Goto(s, t, Peek(p))
    case PeekBit(t) =>
      var p := PcOf(s, t).page;
      if p >= |s.inprog.bits| then s.(failed := true)
      else Goto(s, t, if s.inprog.bits[p] then WantLock(p) else Mark(p))
    case Lock(t) =>
      var p := PcOf(s, t).page;
      if p >= |s.inprog.bits| then s.(failed := true)
      else if !s.inprog.bits[p] then Goto(s, t, Mark(p))
      else if !CanPlace(s, p) then s.(failed := true)
      else Goto(Place(s, p), t, Copying(p, Closest(s.info.free, p)))
    case FinishCopy(t) =>
      var p, dest := PcOf(s, t).page, PcOf(s, t).dest;
      if !(p < |s.region| && dest < |s.file| && p < |s.inprog.bits|) then s.(failed := true)
      else
        var c := Copied(s, p, dest);
        Goto(c.(inprog := c.inprog.(demandWritten := c.inprog.demandWritten + 1)), t, Mark(p))
    case MarkDirty(t) =>
      var p := PcOf(s, t).page;
      if p >= |s.cur.bits| then s.(failed := true)
      else if s.cur.bits[p] then Goto(s, t, Unprotect(p))
      else if |s.cur.pages| >= |s.region| then s.(failed := true)
      else
        Goto(s.(cur := s.cur.(bits := s.cur.bits[p := true], pages := s.cur.pages + [p])), t, Unprotect(p))
    case LiftProtection(t) =>
      var p := PcOf(s, t).page;
      if p >= |s.writable| then s.(failed := true)
      else Goto(s.(writable := s.writable[p := true]), t, InTxn)
    case Swap =>
      s.(cur := s.inprog, inprog := s.cur, writable := seq(|s.region|, _ => false), copier := At(0),
         failed := s.failed || s.inprog.pages != [],
         h := s.h.(snapshot := s.region, writtenAtSwap := s.h.written))
    case CopierLock =>
      var p := s.inprog.pages[s.copier.entry];
      if p >= |s.inprog.bits| then s.(failed := true)
      else if !s.inprog.bits[p] then s.(copier := At(s.copier.entry + 1))
      else if !CanPlace(s, p) then s.(failed := true)
      else Place(s, p).(copier := CopyingEntry(s.copier.entry, Closest(s.info.free, p)))
    case CopierFinish =>
      if s.copier.entry >= |s.inprog.pages| then s.(failed := true)
      else
        var p, dest := s.inprog.pages[s.copier.entry], s.copier.dest;
        if !(p < |s.region| && dest < |s.file| && p < |s.inprog.bits|) then s.(failed := true)
        else
          var c := Copied(s, p, dest);
          c.(inprog := c.inprog.(ckptWritten := c.inprog.ckptWritten + 1), copier := At(s.copier.entry + 1))
    case Complete =>
      s.(info := Completed(s.info), copier := Resting,
         inprog := s.inprog.(pages := [], ckptWritten := 0, demandWritten := 0),
         failed := s.failed || |s.inprog.pages| != s.inprog.ckptWritten + s.inprog.demandWritten,
         h := s.h.(last := s.info.locs, lastSnapshot := s.h.snapshot, copied := {}))
  }

  function NoChanges(n: nat): Changes
  {
    Changes(seq(n, _ => false), [], 0, 0)
  }

  /** A freshly opened region: nothing checkpointed yet, every page read-only. */
  function Initial(region: seq<Page>, file: seq<Page>): State
  {
    var n := |region|;
    var nowhere := Nowhere(2 * n);
    State(region, file, Info(nowhere, nowhere, Upto(2 * n), {}), NoChanges(n), NoChanges(n),
          seq(n, _ => false), map[], Resting, false,
          History(region, nowhere, region, {}, {}, {}))
  }

  ghost predicate ValidRun(s: State, es: seq<Event>)
    decreases |es|
  {
    es == [] || (Enabled(s, es[0]) && ValidRun(Apply(s, es[0]), es[1..]))
  }

  ghost function Exec(s: State, es: seq<Event>): State
    requires ValidRun(s, es)
    decreases |es|
  {
    if es == [] then s else Exec(Apply(s, es[0]), es[1..])
  }
}
