/**
 The checkpoint manager's own code: the fault handler and the checkpoint loop over the shared page
 map and change records.  Each stretch of code between two preemption points is one method, proved
 to be one event of the protocol; the handler and the checkpoint are sequences of them.
 */
module CheckpointManagerImpl {
  import opened Ordered
  import opened PageMap
  import opened SnapshotProtocol
  import opened SnapshotInvariant
  import opened SnapshotTheorems

  /** `region_change_info`: which pages of the region have changed, in order of modification. */
  class RegionChangeInfo {
    var modifiedBits: seq<bool>
    var modifiedPages: seq<nat>
    var modifiedPagesCount: nat
    var ckptWrittenPagesCount: nat
    var demandWrittenPagesCount: nat

    ghost predicate Valid(n: nat)
      reads this
    {
      |modifiedBits| == n && |modifiedPages| == n && modifiedPagesCount <= n
    }

    ghost function Model(): Changes
      requires modifiedPagesCount <= |modifiedPages|
      reads this
    {
      Changes(modifiedBits, modifiedPages[..modifiedPagesCount], ckptWrittenPagesCount, demandWrittenPagesCount)
    }

    constructor (regionPageCount: nat)
      ensures Valid(regionPageCount) && Model() == NoChanges(regionPageCount)
    {
      modifiedBits, modifiedPages := [], [];
      modifiedPagesCount, ckptWrittenPagesCount, demandWrittenPagesCount := 0, 0, 0;
      new;
      Grow(regionPageCount, 0);
      assert modifiedBits == NoChanges(regionPageCount).bits;
    }

    /** Room for more pages, none of them changed; what is recorded stays. */
    method Grow(newRegionPageCount: nat, ghost n: nat)
      requires Valid(n) && n <= newRegionPageCount
      modifies this`modifiedBits, this`modifiedPages
      ensures Valid(newRegionPageCount)
      ensures Model() == old(Model()).(bits := old(modifiedBits) + seq(newRegionPageCount - n, _ => false))
    {
      var more := newRegionPageCount - |modifiedBits|;
      modifiedBits := modifiedBits + seq(more, _ => false);
      modifiedPages := modifiedPages + Nowhere(more);
    }
  }

  class CheckpointManager {
    var region: seq<Page>
    var ckptRegion: seq<Page>
    var writable: seq<bool>
    const ckptInfo: CheckpointInfo
    var changeInfo: RegionChangeInfo
    var changeInfoInprog: RegionChangeInfo
    ghost var threads: map<nat, Pc>
    ghost var copier: Copier
    ghost var h: History

    ghost predicate Shaped()
      reads this, ckptInfo, changeInfo, changeInfoInprog
    {
      && changeInfo != changeInfoInprog
      && changeInfo.Valid(|region|) && changeInfoInprog.Valid(|region|)
      && ckptInfo.Valid(|region|)
      && |ckptRegion| == 2 * |region| && |writable| == |region|
    }

    ghost function Model(): State
      requires Shaped()
      reads this, ckptInfo, changeInfo, changeInfoInprog
    {
      State(region, ckptRegion, ckptInfo.Model(), changeInfo.Model(), changeInfoInprog.Model(), writable,
            threads, copier, false, h)
    }

    /** No section stores to the region or replaces a change record; the swap exchanges the two. */
    twostate predicate SameRecords()
      reads this
    {
      changeInfo == old(changeInfo) && changeInfoInprog == old(changeInfoInprog) && region == old(region)
    }

    constructor (pages: seq<Page>, ckptPages: seq<Page>)
      requires |ckptPages| == 2 * |pages| < NULL_PAGE
      ensures Shaped() && Model() == Initial(pages, ckptPages)
      ensures fresh({this, ckptInfo, changeInfo, changeInfoInprog})
    {
      hide Consistent;
      region, ckptRegion := pages, ckptPages;
      writable := seq(|pages|, _ => false);
      ckptInfo := new CheckpointInfo(2 * |pages|);
      changeInfo := new RegionChangeInfo(|pages|);
      changeInfoInprog := new RegionChangeInfo(|pages|);
      threads, copier := map[], Resting;
      h := History(pages, Nowhere(2 * |pages|), pages, {}, {}, {});
    }

    /** `checkpoint_info::grow`: the page map and both change records, for a region of more pages. */
    method Grow(newCkptPageCount: nat, ghost n: nat)
      requires ckptInfo.Valid(n) && changeInfo.Valid(n) && changeInfoInprog.Valid(n) && changeInfo != changeInfoInprog
      requires 2 * n <= newCkptPageCount < NULL_PAGE && newCkptPageCount % 2 == 0
      modifies ckptInfo, changeInfo, changeInfoInprog
      ensures ckptInfo.Valid(newCkptPageCount / 2) && ckptInfo.Model() == Grown(old(ckptInfo.Model()), newCkptPageCount)
      ensures changeInfo.Valid(newCkptPageCount / 2) && changeInfoInprog.Valid(newCkptPageCount / 2)
      ensures var more := seq(newCkptPageCount / 2 - n, _ => false);
        && changeInfo.Model() == old(changeInfo.Model()).(bits := old(changeInfo.modifiedBits) + more)
        && changeInfoInprog.Model()
           == old(changeInfoInprog.Model()).(bits := old(changeInfoInprog.modifiedBits) + more)
    {
      hide Consistent, Grown;
      ckptInfo.Grow(newCkptPageCount, n);
      changeInfo.Grow(newCkptPageCount / 2, n);
      changeInfoInprog.Grow(newCkptPageCount / 2, n);
    }

    // ---- the copier

    /** The exclusive section of `checkpoint`: swap the change records and protect the region. */
    method SwapAndProtect()
      requires Shaped() && Enabled(Model(), Swap) && changeInfoInprog.modifiedPagesCount == 0
      modifies this
      ensures Shaped() && Model() == Apply(old(Model()), Swap)
      ensures changeInfo == old(changeInfoInprog) && changeInfoInprog == old(changeInfo)
      ensures region == old(region) == h.snapshot && copier == At(0) && threads == old(threads)
    {
      hide Consistent;
      changeInfoInprog, changeInfo := changeInfo, changeInfoInprog;
      writable := seq(|region|, _ => false);
      copier := At(0);
      h := h.(snapshot := region, writtenAtSwap := h.written);
    }

    /** The copier's locked section for one list entry, up to the copy itself. */
    method CopierAllocate(entryNo: nat) returns (dest: Option<nat>)
      requires Shaped() && Enabled(Model(), CopierLock) && copier == At(entryNo)
      requires changeInfoInprog.modifiedPages[entryNo] < |region|
      requires changeInfoInprog.modifiedBits[changeInfoInprog.modifiedPages[entryNo]] ==> ckptInfo.freePages != {}
      modifies this, ckptInfo
      ensures Shaped() && Model() == Apply(old(Model()), CopierLock) && SameRecords()
      ensures threads == old(threads) && h.snapshot == old(h.snapshot)
      ensures changeInfoInprog.modifiedPagesCount == old(changeInfoInprog.modifiedPagesCount)
      ensures copier == if dest.None? then At(entryNo + 1) else CopyingEntry(entryNo, dest.value)
    {
      var pageno := changeInfoInprog.modifiedPages[entryNo];
      assert pageno == Model().inprog.pages[entryNo];
      if changeInfoInprog.modifiedBits[pageno] {
        ClosestIs(ckptInfo.Model(), |region|, pageno);
        var c := ckptInfo.Allocate(pageno, |region|);
        h := h.(copied := h.copied + {pageno});
        copier := CopyingEntry(entryNo, c);
        dest := Some(c);
      } else {
        copier := At(entryNo + 1);
        dest := None;
      }
    }

    /** The copy of a list entry's page, after which its bit is cleared. */
    method CopierCopy(entryNo: nat, dest: nat)
      requires Shaped() && copier == CopyingEntry(entryNo, dest) && dest < |ckptRegion|
      requires entryNo < changeInfoInprog.modifiedPagesCount && changeInfoInprog.modifiedPages[entryNo] < |region|
      modifies this, changeInfoInprog
      ensures Shaped() && Model() == Apply(old(Model()), CopierFinish) && SameRecords()
      ensures threads == old(threads) && h == old(h) && copier == At(entryNo + 1)
      ensures changeInfoInprog.modifiedPagesCount == old(changeInfoInprog.modifiedPagesCount)
    {
      var pageno := changeInfoInprog.modifiedPages[entryNo];
      ckptRegion := ckptRegion[dest := region[pageno]];
      changeInfoInprog.modifiedBits := changeInfoInprog.modifiedBits[pageno := false];
      changeInfoInprog.ckptWrittenPagesCount := changeInfoInprog.ckptWrittenPagesCount + 1;
      copier := At(entryNo + 1);
    }

    /** The end of `checkpoint`: the pending pages become free and the counters start over. */
    method Finish()
      requires Shaped() && Enabled(Model(), Complete)
      requires changeInfoInprog.modifiedPagesCount
               == changeInfoInprog.ckptWrittenPagesCount + changeInfoInprog.demandWrittenPagesCount
      modifies this, ckptInfo, changeInfoInprog
      ensures Shaped() && Model() == Apply(old(Model()), Complete) && SameRecords()
      ensures copier == Resting
    {
      hide Consistent;
      h := h.(last := ckptInfo.pageLocs, lastSnapshot := h.snapshot, copied := {});
      ckptInfo.CompleteCheckpoint(|region|);
      changeInfoInprog.modifiedPagesCount := 0;
      changeInfoInprog.ckptWrittenPagesCount := 0;
      changeInfoInprog.demandWrittenPagesCount := 0;
      copier := Resting;
    }

    // ---- the fault handler, run by thread t

    /** The unlocked look at the in-progress bit. */
    method HandlerPeek(ghost t: nat, pageno: nat) returns (owed: bool)
      requires Shaped() && PcOf(Model(), t) == Peek(pageno) && pageno < |region|
      modifies this
      ensures Shaped() && Model() == Apply(old(Model()), PeekBit(t)) && SameRecords()
      ensures writable == old(writable) && copier == old(copier)
      ensures threads == old(threads)[t := if owed then WantLock(pageno) else Mark(pageno)]
    {
      owed := changeInfoInprog.modifiedBits[pageno];
      threads := threads[t := if owed then WantLock(pageno) else Mark(pageno)];
    }

    /** The double-checked section, up to the copy itself. */
    method HandlerAllocate(ghost t: nat, pageno: nat) returns (dest: Option<nat>)
      requires Shaped() && PcOf(Model(), t) == WantLock(pageno) && Enabled(Model(), Lock(t)) && pageno < |region|
      requires changeInfoInprog.modifiedBits[pageno] ==> ckptInfo.freePages != {}
      modifies this, ckptInfo
      ensures Shaped() && Model() == Apply(old(Model()), Lock(t)) && SameRecords()
      ensures writable == old(writable) && copier == old(copier)
      ensures PcOf(Model(), t) == if dest.None? then Mark(pageno) else Copying(pageno, dest.value)
      ensures dest.Some? ==> dest.value < |ckptRegion|
    {
      if changeInfoInprog.modifiedBits[pageno] {
        ClosestIs(ckptInfo.Model(), |region|, pageno);
        var c := ckptInfo.Allocate(pageno, |region|);
        h := h.(copied := h.copied + {pageno});
        threads := threads[t := Copying(pageno, c)];
        dest := Some(c);
      } else {
        threads := threads[t := Mark(pageno)];
        dest := None;
      }
    }

    /** The demand copy itself. */
    method HandlerCopy(ghost t: nat, pageno: nat, dest: nat)
      requires Shaped() && PcOf(Model(), t) == Copying(pageno, dest) && pageno < |region| && dest < |ckptRegion|
      modifies this, changeInfoInprog
      ensures Shaped() && Model() == Apply(old(Model()), FinishCopy(t)) && SameRecords()
      ensures writable == old(writable) && copier == old(copier)
      ensures PcOf(Model(), t) == Mark(pageno)
    {
      ckptRegion := ckptRegion[dest := region[pageno]];
      changeInfoInprog.modifiedBits := changeInfoInprog.modifiedBits[pageno := false];
      changeInfoInprog.demandWrittenPagesCount := changeInfoInprog.demandWrittenPagesCount + 1;
      threads := threads[t := Mark(pageno)];
    }

    /** The locked section that records the page as modified. */
    method HandlerMark(ghost t: nat, pageno: nat)
      requires Shaped() && PcOf(Model(), t) == Mark(pageno) && pageno < |region|
      requires !changeInfo.modifiedBits[pageno] ==> changeInfo.modifiedPagesCount < |region|
      modifies this, changeInfo
      ensures Shaped() && Model() == Apply(old(Model()), MarkDirty(t)) && SameRecords()
      ensures writable == old(writable) && copier == old(copier)
      ensures PcOf(Model(), t) == Unprotect(pageno)
    {
      if !changeInfo.modifiedBits[pageno] {
        var count := changeInfo.modifiedPagesCount;
        changeInfo.modifiedBits := changeInfo.modifiedBits[pageno := true];
        changeInfo.modifiedPages := changeInfo.modifiedPages[count := pageno];
        changeInfo.modifiedPagesCount := count + 1;
        assert changeInfo.modifiedPages[..count + 1] == old(changeInfo.modifiedPages)[..count] + [pageno];
      }
      threads := threads[t := Unprotect(pageno)];
    }

    method HandlerLift(ghost t: nat, pageno: nat)
      requires Shaped() && PcOf(Model(), t) == Unprotect(pageno) && pageno < |region|
      modifies this
      ensures Shaped() && Model() == Apply(old(Model()), LiftProtection(t)) && SameRecords()
      ensures writable == old(writable)[pageno := true] && copier == old(copier)
      ensures PcOf(Model(), t) == InTxn
    {
      writable := writable[pageno := true];
      threads := threads[t := InTxn];
    }

    // ---- the two entry points, each a run of the protocol when nothing preempts it

    /** The locked part of the demand copy, for a page whose bit was seen set. */
    method CopyOwed(ghost t: nat, pageno: nat, ghost start: State, ghost es: seq<Event>) returns (ghost longer: seq<Event>)
      requires Shaped() && Reaches(start, es, Model()) && Inv(Model())
      requires PcOf(Model(), t) == WantLock(pageno) && pageno < |region| && !Busy(Model(), pageno % MUTEX_COUNT)
      modifies this, ckptInfo, changeInfoInprog
      ensures Shaped() && SameRecords()
      ensures Reaches(start, longer, Model()) && Inv(Model())
      ensures PcOf(Model(), t) == Mark(pageno)
      ensures writable == old(writable) && copier == old(copier)
    {
      hide Inv, Apply, Exec, ValidRun, Busy, Shaped, Model;
      ghost var s1 := Model();
      CopyHasRoom(this, pageno);
      var dest := HandlerAllocate(t, pageno);
      longer := Did(start, s1, es, Lock(t));
      if dest.Some? {
        ghost var s2 := Model();
        HandlerCopy(t, pageno, dest.value);
        longer := Did(start, s2, longer, FinishCopy(t));
      }
    }

    /** The first half of the handler: if the page is still owed to the checkpoint, copy it now. */
    method DemandCopy(ghost t: nat, pageno: nat, ghost start: State) returns (ghost es: seq<Event>)
      requires Shaped() && Inv(Model()) && start == Model()
      requires PcOf(Model(), t) == Peek(pageno) && pageno < |region| && !Busy(Model(), pageno % MUTEX_COUNT)
      modifies this, ckptInfo, changeInfoInprog
      ensures Shaped() && SameRecords()
      ensures Reaches(start, es, Model()) && Inv(Model())
      ensures PcOf(Model(), t) == Mark(pageno)
      ensures writable == old(writable) && copier == old(copier)
    {
      hide Inv, Apply, Exec, ValidRun, Busy;
      Here(start);
      var owed := HandlerPeek(t, pageno);
      es := Did(start, start, [], PeekBit(t));
      if owed {
        StillFree(start, Model(), pageno % MUTEX_COUNT);
        es := CopyOwed(t, pageno, start, es);
      }
    }

    /** `page_write_handler`, entered by thread `t` on a store to the protected page `pageno`. */
    method PageWriteHandler(ghost t: nat, pageno: nat) returns (ghost es: seq<Event>)
      requires Shaped() && Inv(Model()) && PcOf(Model(), t) == Peek(pageno) && pageno < |region|
      requires !Busy(Model(), pageno % MUTEX_COUNT)
      modifies this, ckptInfo, changeInfo, changeInfoInprog
      ensures Shaped() && SameRecords()
      ensures Reaches(old(Model()), es, Model()) && Inv(Model())
      ensures writable == old(writable)[pageno := true] && PcOf(Model(), t) == InTxn
      ensures copier == old(copier)
    {
      hide Inv, Apply, Exec, ValidRun, Busy, Shaped, Model;
      ghost var start := Model();
      es := DemandCopy(t, pageno, start);
      ghost var s1 := Model();
      MarkHasRoom(this, pageno);
      HandlerMark(t, pageno);
      es := Did(start, s1, es, MarkDirty(t));
      ghost var s2 := Model();
      HandlerLift(t, pageno);
      es := Did(start, s2, es, LiftProtection(t));
    }

    /** One turn of the copier's loop. */
    method CopyEntry(entryNo: nat, ghost start: State, ghost es: seq<Event>) returns (ghost longer: seq<Event>)
      requires Shaped() && Reaches(start, es, Model()) && Inv(Model())
      requires copier == At(entryNo) && entryNo < changeInfoInprog.modifiedPagesCount
      requires forall u :: u in threads ==> threads[u].Idle?
      modifies this, ckptInfo, changeInfoInprog
      ensures Shaped() && Reaches(start, longer, Model()) && Inv(Model()) && SameRecords()
      ensures copier == At(entryNo + 1) && threads == old(threads) && h.snapshot == old(h.snapshot)
      ensures changeInfoInprog.modifiedPagesCount == old(changeInfoInprog.modifiedPagesCount)
    {
      hide Inv, Apply, Exec, ValidRun, Shaped, Model;
      ghost var s1 := Model();
      EntryToDo(this, entryNo);
      var dest := CopierAllocate(entryNo);
      longer := Did(start, s1, es, CopierLock);
      if dest.Some? {
        ghost var s2 := Model();
        EntryToCopy(this, entryNo, dest.value);
        CopierCopy(entryNo, dest.value);
        longer := Did(start, s2, longer, CopierFinish);
      }
    }

    /** `checkpoint`: at its end the file holds the region, in every place the page map names. */
    method Checkpoint() returns (ghost es: seq<Event>)
      requires Shaped() && Inv(Model()) && Enabled(Model(), Swap)
      modifies this, ckptInfo, changeInfo, changeInfoInprog
      ensures Shaped() && Inv(Model()) && region == old(region)
      ensures Reaches(old(Model()), es, Model())
      ensures forall r :: 0 <= r < |region| ==> Holds(Model(), r, region[r]) || Unplaced(Model(), r)
      ensures copier == Resting
    {
      hide Inv, Apply, Exec, ValidRun, Shaped, Model;
      ghost var start := Model();
      SwapIsReady(this);
      Here(start);
      SwapAndProtect();
      es := Did(start, start, [], Swap);
      var modifiedPages := changeInfoInprog.modifiedPagesCount;
      var entryNo := 0;
      while entryNo < modifiedPages
        invariant Shaped() && Inv(Model())
        invariant Reaches(start, es, Model())
        invariant region == old(region) == h.snapshot
        invariant changeInfo == old(changeInfoInprog) && changeInfoInprog == old(changeInfo)
        invariant entryNo <= modifiedPages == changeInfoInprog.modifiedPagesCount
        invariant copier == At(entryNo)
        invariant forall u :: u in threads ==> threads[u].Idle?
      {
        es := CopyEntry(entryNo, start, es);
        entryNo := entryNo + 1;
      }
      ghost var last := Model();
      CompleteIsReady(this);
      Finish();
      es := Did(start, last, es, Complete);
      RegionIsHeld(this, last);
    }
  }

  lemma CopyHasRoom(m: CheckpointManager, pageno: nat)
    requires m.Shaped() && Inv(m.Model()) && pageno < |m.region| && !Busy(m.Model(), pageno % MUTEX_COUNT)
    ensures |m.changeInfoInprog.modifiedBits| == |m.region|
    ensures m.changeInfoInprog.modifiedBits[pageno] ==> m.ckptInfo.freePages != {}
  {
    hide Inv, Busy;
    OwedHasRoom(m.Model(), pageno);
  }

  lemma MarkHasRoom(m: CheckpointManager, pageno: nat)
    requires m.Shaped() && Inv(m.Model()) && pageno < |m.region|
    ensures |m.changeInfo.modifiedBits| == |m.region|
    ensures !m.changeInfo.modifiedBits[pageno] ==> m.changeInfo.modifiedPagesCount < |m.region|
  {
    hide Inv;
    ListHasRoom(m.Model(), pageno);
  }

  lemma EntryToDo(m: CheckpointManager, entryNo: nat)
    requires m.Shaped() && Inv(m.Model()) && m.copier == At(entryNo) && entryNo < m.changeInfoInprog.modifiedPagesCount
    requires forall u :: u in m.threads ==> m.threads[u].Idle?
    ensures Enabled(m.Model(), CopierLock)
    ensures entryNo < |m.changeInfoInprog.modifiedPages| && m.changeInfoInprog.modifiedPages[entryNo] < |m.region|
    ensures |m.changeInfoInprog.modifiedBits| == |m.region|
    ensures m.changeInfoInprog.modifiedBits[m.changeInfoInprog.modifiedPages[entryNo]] ==> m.ckptInfo.freePages != {}
  {
    hide Inv;
    EntryReady(m.Model());
    assert m.changeInfoInprog.modifiedPages[entryNo] == m.Model().inprog.pages[entryNo];
  }

  lemma EntryToCopy(m: CheckpointManager, entryNo: nat, dest: nat)
    requires m.Shaped() && Inv(m.Model()) && m.copier == CopyingEntry(entryNo, dest)
    ensures Enabled(m.Model(), CopierFinish) && dest < |m.ckptRegion|
    ensures entryNo < m.changeInfoInprog.modifiedPagesCount <= |m.changeInfoInprog.modifiedPages|
    ensures m.changeInfoInprog.modifiedPages[entryNo] < |m.region|
  {
    hide Inv;
    EntryCopyReady(m.Model());
    assert m.changeInfoInprog.modifiedPages[entryNo] == m.Model().inprog.pages[entryNo];
  }

  lemma SwapIsReady(m: CheckpointManager)
    requires m.Shaped() && Inv(m.Model()) && Enabled(m.Model(), Swap)
    ensures m.changeInfo != m.changeInfoInprog && m.changeInfoInprog.modifiedPagesCount == 0
    ensures forall u :: u in m.threads ==> m.threads[u].Idle?
  {
    hide Inv;
    SwapReady(m.Model());
  }

  lemma CompleteIsReady(m: CheckpointManager)
    requires m.Shaped() && Inv(m.Model()) && m.copier == At(m.changeInfoInprog.modifiedPagesCount)
    ensures Enabled(m.Model(), Complete) && m.Model().h == m.h && m.Model().region == m.region
    ensures m.changeInfoInprog.modifiedPagesCount
            == m.changeInfoInprog.ckptWrittenPagesCount + m.changeInfoInprog.demandWrittenPagesCount
  {
    hide Inv;
    AllFinished(m.Model());
  }

  lemma RegionIsHeld(m: CheckpointManager, last: State)
    requires m.Shaped() && Inv(last) && Enabled(last, Complete) && m.Model() == Apply(last, Complete)
    requires |m.region| == |last.region| && m.region == last.h.snapshot
    ensures forall r :: 0 <= r < |m.region| ==> Holds(m.Model(), r, m.region[r]) || Unplaced(m.Model(), r)
  {
    hide Inv, Apply, Enabled, CheckpointManager.Model, CheckpointManager.Shaped, Holds, Unplaced;
    forall r | 0 <= r < |m.region| ensures Holds(m.Model(), r, m.region[r]) || Unplaced(m.Model(), r) {
      CompletedContent(last, r);
    }
  }

  lemma ClosestIs(i: Info, n: nat, r: nat)
    requires Consistent(i, n) && r < n && i.free != {}
    ensures 0 <= Closest(i.free, r) < 2 * n
    ensures forall c :: IsClosest(i.free, r, c) ==> c == Closest(i.free, r)
  {
  }

  /** The events `es` lead from `start` to `s`. */
  ghost predicate Reaches(start: State, es: seq<Event>, s: State)
  {
    ValidRun(start, es) && s == Exec(start, es)
  }

  lemma Here(s: State)
    ensures Reaches(s, [], s)
  {
  }

  /** Extends the run `es`, which led from `start` to `s`, by the event just taken. */
  ghost method Did(start: State, s: State, es: seq<Event>, e: Event) returns (longer: seq<Event>)
    requires Reaches(start, es, s) && Inv(s) && Enabled(s, e)
    ensures longer == es + [e] && Reaches(start, longer, Apply(s, e)) && Inv(Apply(s, e))
  {
    longer := es + [e];
    RunThen(start, es, e);
    EventKeeps(s, e);
  }

  lemma SwapReady(s: State)
    requires Inv(s) && Enabled(s, Swap)
    ensures s.inprog.pages == []
  {
  }

  lemma StillFree(s: State, s': State, m: nat)
    requires !Busy(s, m) && s'.copier == s.copier && s'.inprog == s.inprog
    requires forall u :: u in s'.threads && s'.threads[u].Copying? ==> u in s.threads && s.threads[u] == s'.threads[u]
    ensures !Busy(s', m)
  {
    assert forall u :: u in s'.threads && ThreadHolds(s', u, m) ==> ThreadHolds(s, u, m);
  }

  lemma OwedHasRoom(s: State, p: nat)
    requires Inv(s) && p < |s.region| && !Busy(s, p % MUTEX_COUNT)
    ensures s.inprog.bits[p] ==> s.info.free != {}
  {
    if s.inprog.bits[p] {
      CanPlaceWhenOwed(s, p);
    }
  }

  lemma ListHasRoom(s: State, p: nat)
    requires Inv(s) && p < |s.region|
    ensures !s.cur.bits[p] ==> |s.cur.pages| < |s.region|
  {
    if !s.cur.bits[p] {
      RoomInList(s.cur.pages, |s.region|, p);
    }
  }

  lemma EntryReady(s: State)
    requires Inv(s) && s.copier.At? && s.copier.entry < |s.inprog.pages|
    requires forall u :: u in s.threads ==> s.threads[u].Idle?
    ensures Enabled(s, CopierLock)
    ensures s.inprog.pages[s.copier.entry] < |s.region|
    ensures s.inprog.bits[s.inprog.pages[s.copier.entry]] ==> s.info.free != {}
  {
    OwedHasRoom(s, s.inprog.pages[s.copier.entry]);
  }

  lemma EntryCopyReady(s: State)
    requires Inv(s) && s.copier.CopyingEntry?
    ensures s.copier.entry < |s.inprog.pages| && s.inprog.pages[s.copier.entry] < |s.region|
    ensures s.copier.dest < |s.file|
  {
  }
}
