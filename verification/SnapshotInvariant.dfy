/** What every event of the checkpoint protocol keeps. */
module SnapshotInvariant {
  import opened Ordered
  import opened PageMap
  import opened SnapshotProtocol

  ghost predicate NoDuplicates(pages: seq<nat>)
  {
    forall i, j :: 0 <= i < j < |pages| ==> pages[i] != pages[j]
  }

  ghost predicate ChangesShape(c: Changes, n: nat)
  {
    && |c.bits| == n && NoDuplicates(c.pages)
    && (forall i :: 0 <= i < |c.pages| ==> c.pages[i] < n)
    && (forall p :: 0 <= p < n && c.bits[p] ==> p in c.pages)
  }

  ghost predicate InRange(pc: Pc, n: nat)
  {
    match pc
    case Idle | InTxn => true
    case Copying(p, dest) => p < n && dest < 2 * n
    case _ => pc.page < n
  }

  ghost predicate Shape(s: State)
  {
    var n := |s.region|;
    && |s.file| == 2 * n && |s.writable| == n && |s.h.snapshot| == n
    && Consistent(s.info, n)
    && ChangesShape(s.cur, n) && ChangesShape(s.inprog, n)
    && (forall t :: t in s.threads ==> InRange(s.threads[t], n))
    && (s.copier.CopyingEntry? ==> s.copier.dest < 2 * n && s.copier.entry < |s.inprog.pages|)
    && (s.copier.At? ==> s.copier.entry <= |s.inprog.pages|)
    && (s.copier.Resting? ==> s.inprog.pages == [])
  }

  /** Only dirty pages are writable, and only dirty pages differ from the snapshot. */
  ghost predicate Protected(s: State)
    requires Shape(s)
  {
    && (forall p :: 0 <= p < |s.region| && s.writable[p] ==> s.cur.bits[p])
    && (forall p :: 0 <= p < |s.region| && s.cur.bits[p] ==> !s.inprog.bits[p] && p in s.cur.pages)
    && (forall p :: 0 <= p < |s.region| && p in s.cur.pages ==> s.cur.bits[p])
    && (forall p :: 0 <= p < |s.region| && !s.cur.bits[p] ==> s.region[p] == s.h.snapshot[p])
    && (forall t :: t in s.threads && s.threads[t].Mark? ==> !s.inprog.bits[s.threads[t].page])
    && (forall t :: t in s.threads && s.threads[t].Unprotect? ==> s.cur.bits[s.threads[t].page])
  }

  /** The copier counts as the writer with this number. */
  const COPIER: int := -1

  /** Writer `w`, a thread or the copier, is in the middle of copying page `p` to file page `dest`. */
  ghost predicate Copies(s: State, w: int, p: int, dest: nat)
  {
    if w == COPIER then
      s.copier.CopyingEntry? && s.copier.entry < |s.inprog.pages| && s.inprog.pages[s.copier.entry] == p && s.copier.dest == dest
    else
      0 <= w && w in s.threads && s.threads[w].Copying? && s.threads[w].page == p && s.threads[w].dest == dest
  }

  ghost predicate InFlight(s: State, p: int)
  {
    exists w, dest :: Copies(s, w, p, dest)
  }

  /** A page being copied has its place and its bit; the page mutexes keep copies of one page apart. */
  ghost predicate Exclusive(s: State)
    requires Shape(s)
  {
    && (forall w, p, dest :: Copies(s, w, p, dest) ==>
          0 <= p < |s.region| && s.inprog.bits[p] && s.info.locs[p] == dest && p in s.h.copied)
    && (forall w, u, p, q, d, e :: Copies(s, w, p, d) && Copies(s, u, q, e) && w != u ==> p % MUTEX_COUNT != q % MUTEX_COUNT)
  }

  /** Progress through the list of changed pages, and which of them have been given a place. */
  ghost predicate Progress(s: State)
    requires Shape(s)
  {
    && (forall p :: p in s.h.copied ==> 0 <= p < |s.region| && p in s.inprog.pages)
    && (forall p :: p in s.h.copied && s.inprog.bits[p] ==> InFlight(s, p))
    && (forall p :: 0 <= p < |s.region| && p in s.inprog.pages && !s.inprog.bits[p] ==> p in s.h.copied)
    && (!s.copier.Resting? ==> forall j :: 0 <= j < s.copier.entry ==> !s.inprog.bits[s.inprog.pages[j]])
  }

  /** The pages of the list whose copy is finished. */
  ghost function Finished(s: State): set<int>
    requires Shape(s)
  {
    set p | p in s.inprog.pages && !s.inprog.bits[p]
  }

  ghost predicate Counted(s: State)
    requires Shape(s)
  {
    && s.inprog.ckptWritten + s.inprog.demandWritten == |Finished(s)|
    && s.cur.ckptWritten == 0 && s.cur.demandWritten == 0
  }

  /** Shadow paging: the last completed checkpoint stays where it was, untouched. */
  ghost predicate Shadowed(s: State)
    requires Shape(s)
  {
    var n := |s.region|;
    && |s.h.last| == 2 * n && |s.h.lastSnapshot| == n
    && (forall p :: 0 <= p < n && p !in s.h.copied ==> s.info.locs[p] == s.h.last[p])
    && ReleasedBy(s.info.pending, s.h.last, s.h.copied)
    && (forall p :: 0 <= p < n && s.h.last[p] != NULL_PAGE ==> s.h.last[p] < 2 * n && s.h.last[p] !in s.info.free)
    && (forall p, q :: 0 <= p < n && 0 <= q < n && p in s.h.copied ==> s.info.locs[p] != s.h.last[q])
    && (forall p :: p in s.h.copied ==> s.info.locs[p] != NULL_PAGE)
    && (forall p :: 0 <= p < n && s.h.last[p] != NULL_PAGE ==> s.file[s.h.last[p]] == s.h.lastSnapshot[p])
  }

  /** A page whose copy is not owed has its snapshot in the file, if it was ever written. */
  ghost predicate Content(s: State)
    requires Shape(s)
  {
    && (forall p :: 0 <= p < |s.region| && !s.inprog.bits[p] && s.info.locs[p] != NULL_PAGE ==>
          s.file[s.info.locs[p]] == s.h.snapshot[p])
    && (forall p :: p in s.h.written ==> 0 <= p < |s.region| && (p in s.h.writtenAtSwap || s.cur.bits[p]))
    && (forall p :: p in s.h.writtenAtSwap ==> 0 <= p < |s.region| && (s.info.locs[p] != NULL_PAGE || s.inprog.bits[p]))
  }

  ghost predicate Inv(s: State)
  {
    && !s.failed && Shape(s) && Protected(s) && Exclusive(s) && Progress(s) && Counted(s) && Shadowed(s) && Content(s)
  }

  lemma InitialInv(region: seq<Page>, file: seq<Page>)
    requires |file| == 2 * |region| < NULL_PAGE
    ensures Inv(Initial(region, file))
  {
    var s := Initial(region, file);
    assert Shape(s);
    assert Finished(s) == {};
  }

  function Elements(pages: seq<nat>): set<int>
  {
    set p: int | p in pages
  }

  /** A list without duplicates is as long as the set of its pages. */
  lemma {:induction false} DistinctCardinality(pages: seq<nat>)
    requires NoDuplicates(pages)
    ensures |Elements(pages)| == |pages|
  {
    if pages == [] {
      assert Elements(pages) == {};
    } else {
      var front, x := pages[..|pages| - 1], pages[|pages| - 1];
      DistinctCardinality(front);
      assert pages == front + [x];
      assert Elements(pages) == Elements(front) + {x};
    }
  }

  /** The copies in progress and the threads about to mark or unprotect a page are the same in both states. */
  ghost predicate SameWork(s: State, s': State)
  {
    && (forall w, p, dest :: Copies(s', w, p, dest) <==> Copies(s, w, p, dest))
    && forall p :: InFlight(s', p) <==> InFlight(s, p)
  }

  /** Everything but the threads' places, the dirty pages and the copier's position is the same. */
  ghost predicate SameFiles(s: State, s': State)
  {
    && s'.inprog == s.inprog && s'.info == s.info && s'.file == s.file && |s'.region| == |s.region|
    && s'.h == s.h.(written := s'.h.written)
    && (s'.cur.ckptWritten, s'.cur.demandWritten) == (s.cur.ckptWritten, s.cur.demandWritten)
  }

  lemma SameExclusive(s: State, s': State)
    requires Shape(s) && Shape(s') && SameFiles(s, s') && SameWork(s, s') && Exclusive(s)
    ensures Exclusive(s')
  {
    hide Copies, Consistent, InRange;
  }

  lemma SameProgress(s: State, s': State)
    requires Shape(s) && Shape(s') && SameFiles(s, s') && SameWork(s, s') && Progress(s)
    requires !s'.copier.Resting? ==> forall j :: 0 <= j < s'.copier.entry ==> !s.inprog.bits[s.inprog.pages[j]]
    ensures Progress(s')
  {
    hide Copies, InFlight, Consistent, InRange;
  }

  lemma SameCounted(s: State, s': State)
    requires Shape(s) && Shape(s') && SameFiles(s, s') && Counted(s)
    ensures Counted(s')
  {
    hide Consistent, InRange;
    assert Finished(s') == Finished(s);
  }

  lemma SameShadowed(s: State, s': State)
    requires Shape(s) && Shape(s') && SameFiles(s, s') && Shadowed(s)
    ensures Shadowed(s')
  {
    hide Consistent, InRange, ReleasedBy;
  }

  lemma SameContent(s: State, s': State)
    requires Shape(s) && Shape(s') && SameFiles(s, s') && Content(s)
    requires forall p :: 0 <= p < |s.region| && s.cur.bits[p] ==> s'.cur.bits[p]
    requires forall p :: p in s'.h.written && p !in s.h.written ==> 0 <= p < |s.region| && s'.cur.bits[p]
    ensures Content(s')
  {
    hide Consistent, InRange;
  }

  /** What is left to show of an event that touches neither the files nor the copies in progress. */
  lemma SameInv(s: State, s': State)
    requires Inv(s) && Shape(s') && Protected(s') && !s'.failed && SameFiles(s, s') && SameWork(s, s')
    requires !s'.copier.Resting? ==> forall j :: 0 <= j < s'.copier.entry ==> !s.inprog.bits[s.inprog.pages[j]]
    requires forall p :: 0 <= p < |s.region| && s.cur.bits[p] ==> s'.cur.bits[p]
    requires forall p :: p in s'.h.written && p !in s.h.written ==> 0 <= p < |s.region| && s'.cur.bits[p]
    ensures Inv(s')
  {
    hide Consistent, InRange, Protected, Exclusive, Progress, Counted, Shadowed, Content, SameWork;
    SameExclusive(s, s');
    SameProgress(s, s');
    SameCounted(s, s');
    SameShadowed(s, s');
    SameContent(s, s');
  }

  /** The copier has passed only pages that are copied. */
  lemma PassedAreCopied(s: State)
    requires Inv(s) && !s.copier.Resting?
    ensures s.copier.entry <= |s.inprog.pages| && |s.inprog.bits| == |s.region|
    ensures forall j :: 0 <= j < s.copier.entry ==> s.inprog.pages[j] < |s.region| && !s.inprog.bits[s.inprog.pages[j]]
  {
  }

  // ---- moving a thread that is not copying to a place where it is not copying either

  lemma PcMoveWork(s: State, t: nat, pc: Pc)
    requires !PcOf(s, t).Copying? && !pc.Copying?
    ensures SameWork(s, Goto(s, t, pc))
  {
    var s' := Goto(s, t, pc);
    assert forall w, p, dest :: Copies(s', w, p, dest) <==> Copies(s, w, p, dest);
  }

  lemma PcMove(s: State, t: nat, pc: Pc)
    requires Inv(s) && !PcOf(s, t).Copying? && !pc.Copying? && InRange(pc, |s.region|)
    requires pc.Mark? ==> !s.inprog.bits[pc.page]
    requires pc.Unprotect? ==> s.cur.bits[pc.page]
    ensures Inv(Goto(s, t, pc))
  {
    hide Consistent, Exclusive, Counted, Shadowed, Content, ReleasedBy;
    PcMoveWork(s, t, pc);
    SameInv(s, Goto(s, t, pc));
  }

  lemma StoreKeeps(s: State, t: nat, p: nat, v: Page)
    requires Inv(s) && Enabled(s, Store(t, p, v))
    ensures Inv(Apply(s, Store(t, p, v)))
  {
    hide Consistent, Exclusive, Counted, Shadowed, Content, ReleasedBy;
    var s' := Apply(s, Store(t, p, v));
    assert SameWork(s, s') by {
      assert forall w, q, dest :: Copies(s', w, q, dest) <==> Copies(s, w, q, dest);
    }
    SameInv(s, s');
  }

  // ---- a page is given a place

  /** Writer `w` has locked page `p`, found its bit set and allocated it a place. */
  ghost predicate Starts(s: State, s': State, w: int, p: nat, c: nat)
    requires Shape(s)
  {
    && p < |s.region| && s.inprog.bits[p] && c in s.info.free
    && (s'.region, s'.file, s'.cur, s'.inprog, s'.writable, s'.failed)
       == (s.region, s.file, s.cur, s.inprog, s.writable, s.failed)
    && s'.info == Allocated(s.info, p, c)
    && s'.h == s.h.(copied := s.h.copied + {p})
    && (forall u, q, dest :: u != w ==> (Copies(s', u, q, dest) <==> Copies(s, u, q, dest)))
    && (forall q, dest :: Copies(s', w, q, dest) <==> q == p && dest == c)
    && (forall q, dest :: !Copies(s, w, q, dest))
    && (forall u, q, dest :: Copies(s, u, q, dest) ==> q % MUTEX_COUNT != p % MUTEX_COUNT)
  }

  lemma StartExclusive(s: State, s': State, w: int, p: nat, c: nat)
    requires Shape(s) && Shape(s') && Exclusive(s) && Starts(s, s', w, p, c)
    ensures Exclusive(s')
  {
  }

  lemma StartProgress(s: State, s': State, w: int, p: nat, c: nat)
    requires Shape(s) && Shape(s') && Exclusive(s) && Progress(s) && Starts(s, s', w, p, c)
    requires s'.copier.Resting? <==> s.copier.Resting?
    requires !s.copier.Resting? ==> s'.copier.entry == s.copier.entry
    ensures Progress(s')
  {
    forall q | q in s'.h.copied && s'.inprog.bits[q] ensures InFlight(s', q) {
      if q == p {
        assert Copies(s', w, p, c);
      } else {
        var u, dest :| Copies(s, u, q, dest);
        assert Copies(s', u, q, dest);
      }
    }
  }

  /** The page being placed has no place in this cycle yet: if it had one, its copy would be in flight. */
  lemma NotPlacedYet(s: State, p: nat)
    requires Shape(s) && Exclusive(s) && Progress(s)
    requires p < |s.region| && s.inprog.bits[p]
    requires forall u, q, dest :: Copies(s, u, q, dest) ==> q % MUTEX_COUNT != p % MUTEX_COUNT
    ensures p !in s.h.copied
  {
    assert !InFlight(s, p);
  }

  lemma StartReleases(s: State, s': State, w: int, p: nat, c: nat)
    requires Shape(s) && Shadowed(s) && Starts(s, s', w, p, c) && p !in s.h.copied
    ensures ReleasedBy(s'.info.pending, s'.h.last, s'.h.copied)
  {
    var current := s.info.locs[p];
    assert forall x :: x in s'.info.pending ==> x in s.info.pending || (x == current && current != NULL_PAGE);
    forall x | x in s'.info.pending ensures x < NULL_PAGE && exists q :: q in s'.h.copied && s.h.last[q] == x {
      if x in s.info.pending {
        var q :| q in s.h.copied && s.h.last[q] == x;
        assert q in s'.h.copied;
      } else {
        assert p in s'.h.copied && s.h.last[p] == x;
      }
    }
  }

  lemma StartShadowed(s: State, s': State, w: int, p: nat, c: nat)
    requires Shape(s) && Shape(s') && Shadowed(s) && Starts(s, s', w, p, c)
    requires p !in s.h.copied
    ensures Shadowed(s')
  {
    StartReleases(s, s', w, p, c);
  }

  lemma StartContent(s: State, s': State, w: int, p: nat, c: nat)
    requires Shape(s) && Shape(s') && Content(s) && Starts(s, s', w, p, c)
    ensures Content(s')
  {
  }

  // ---- a copy is finished

  /** Writer `w` has copied page `p` to file page `c` and cleared its bit. */
  ghost predicate Finishes(s: State, s': State, w: int, p: nat, c: nat)
    requires Shape(s)
  {
    && p < |s.region| && c < 2 * |s.region| && Copies(s, w, p, c)
    && (s'.region, s'.cur, s'.writable, s'.failed, s'.info, s'.h)
       == (s.region, s.cur, s.writable, s.failed, s.info, s.h)
    && s'.file == s.file[c := s.region[p]]
    && s'.inprog.bits == s.inprog.bits[p := false] && s'.inprog.pages == s.inprog.pages
    && s'.inprog.ckptWritten + s'.inprog.demandWritten == s.inprog.ckptWritten + s.inprog.demandWritten + 1
    && (forall u, q, dest :: u != w ==> (Copies(s', u, q, dest) <==> Copies(s, u, q, dest)))
    && (forall q, dest :: !Copies(s', w, q, dest))
  }

  lemma FinishExclusive(s: State, s': State, w: int, p: nat, c: nat)
    requires Shape(s) && Shape(s') && Exclusive(s) && Finishes(s, s', w, p, c)
    ensures Exclusive(s')
  {
  }

  lemma FinishInFlight(s: State, s': State, w: int, p: nat, c: nat)
    requires Shape(s) && Shape(s') && Exclusive(s) && Progress(s) && Finishes(s, s', w, p, c)
    ensures forall q :: q in s'.h.copied && s'.inprog.bits[q] ==> InFlight(s', q)
  {
    forall q | q in s'.h.copied && s'.inprog.bits[q] ensures InFlight(s', q) {
      var u, dest :| Copies(s, u, q, dest);
      assert u != w;
      assert Copies(s', u, q, dest);
    }
  }

  lemma FinishCounted(s: State, s': State, w: int, p: nat, c: nat)
    requires Shape(s) && Shape(s') && Exclusive(s) && Progress(s) && Counted(s) && Finishes(s, s', w, p, c)
    ensures Counted(s')
  {
    assert p in s.inprog.pages;
    assert Finished(s') == Finished(s) + {p};
  }

  lemma FinishShadowed(s: State, s': State, w: int, p: nat, c: nat)
    requires Shape(s) && Shape(s') && Exclusive(s) && Shadowed(s) && Finishes(s, s', w, p, c)
    ensures Shadowed(s')
  {
  }

  lemma FinishContent(s: State, s': State, w: int, p: nat, c: nat)
    requires Shape(s) && Shape(s') && Protected(s) && Exclusive(s) && Content(s) && Finishes(s, s', w, p, c)
    ensures Content(s')
  {
    assert s.region[p] == s.h.snapshot[p];
    forall q | 0 <= q < |s.region| && !s'.inprog.bits[q] && s'.info.locs[q] != NULL_PAGE
      ensures s'.file[s'.info.locs[q]] == s'.h.snapshot[q]
    {
      if q != p {
        assert s.info.locs[q] != c;
      }
    }
  }

  // ---- the events

  lemma NotBusy(s: State, m: nat)
    requires !Busy(s, m)
    ensures forall w, p, dest :: Copies(s, w, p, dest) ==> p % MUTEX_COUNT != m
  {
    forall w, p, dest | Copies(s, w, p, dest) ensures p % MUTEX_COUNT != m {
      if w == COPIER {
        assert !CopierHolds(s, m);
      } else {
        assert !ThreadHolds(s, w, m);
      }
    }
  }

  lemma CanPlaceWhenOwed(s: State, p: nat)
    requires Shape(s) && Exclusive(s) && Progress(s) && Shadowed(s)
    requires p < |s.region| && s.inprog.bits[p] && !Busy(s, p % MUTEX_COUNT)
    ensures p !in s.h.copied && CanPlace(s, p) && Closest(s.info.free, p) in s.info.free
  {
    NotBusy(s, p % MUTEX_COUNT);
    NotPlacedYet(s, p);
    assert s.h.copied <= Upto(|s.region|);
    FreePageLeft(s.info, |s.region|, s.h.last, s.h.copied, p);
  }

  lemma StartKeeps(s: State, s': State, w: int, p: nat, c: nat)
    requires Inv(s) && Shape(s') && Protected(s') && Starts(s, s', w, p, c) && p !in s.h.copied
    requires s'.copier.Resting? <==> s.copier.Resting?
    requires !s.copier.Resting? ==> s'.copier.entry == s.copier.entry
    ensures Inv(s')
  {
    StartExclusive(s, s', w, p, c);
    StartProgress(s, s', w, p, c);
    assert Finished(s') == Finished(s);
    StartShadowed(s, s', w, p, c);
    StartContent(s, s', w, p, c);
  }

  lemma LockStarts(s: State, t: nat)
    requires Inv(s) && Enabled(s, Lock(t)) && s.inprog.bits[PcOf(s, t).page]
    ensures var p := PcOf(s, t).page; var s' := Apply(s, Lock(t));
      && p !in s.h.copied && s.info.free != {} && Starts(s, s', t, p, Closest(s.info.free, p))
      && Shape(s') && Protected(s') && s'.copier == s.copier
  {
    hide Shadowed, Content, Counted, Consistent, Allocated;
    var p := PcOf(s, t).page;
    CanPlaceWhenOwed(s, p);
    PlaceBounds(s.info, |s.region|, p);
    var s' := Apply(s, Lock(t));
    AllocatedConsistent(s.info, |s.region|, p, Closest(s.info.free, p));
    NotBusy(s, p % MUTEX_COUNT);
    assert forall u, q, dest :: u != t ==> (Copies(s', u, q, dest) <==> Copies(s, u, q, dest));
  }

  lemma LockKeeps(s: State, t: nat)
    requires Inv(s) && Enabled(s, Lock(t))
    ensures Inv(Apply(s, Lock(t)))
  {
    var p := PcOf(s, t).page;
    if s.inprog.bits[p] {
      LockStarts(s, t);
      StartKeeps(s, Apply(s, Lock(t)), t, p, Closest(s.info.free, p));
    } else {
      PcMove(s, t, Mark(p));
    }
  }

  lemma CopierLockStarts(s: State)
    requires Inv(s) && Enabled(s, CopierLock) && s.inprog.bits[s.inprog.pages[s.copier.entry]]
    ensures var p := s.inprog.pages[s.copier.entry]; var s' := Apply(s, CopierLock);
      && p !in s.h.copied && s.info.free != {} && Starts(s, s', COPIER, p, Closest(s.info.free, p))
      && Shape(s') && Protected(s') && s'.copier.CopyingEntry? && s'.copier.entry == s.copier.entry
  {
    hide Shadowed, Content, Counted, Consistent, Allocated;
    var p := s.inprog.pages[s.copier.entry];
    CanPlaceWhenOwed(s, p);
    PlaceBounds(s.info, |s.region|, p);
    var s' := Apply(s, CopierLock);
    AllocatedConsistent(s.info, |s.region|, p, Closest(s.info.free, p));
    NotBusy(s, p % MUTEX_COUNT);
    assert forall u, q, dest :: u != COPIER ==> (Copies(s', u, q, dest) <==> Copies(s, u, q, dest));
  }

  lemma SkipWork(s: State)
    requires s.copier.At?
    ensures SameWork(s, s.(copier := At(s.copier.entry + 1)))
  {
    var s' := s.(copier := At(s.copier.entry + 1));
    assert forall u, q, dest :: Copies(s', u, q, dest) <==> Copies(s, u, q, dest);
  }

  /** An entry whose page a fault handler has copied already is passed over. */
  lemma CopierSkips(s: State)
    requires Inv(s) && Enabled(s, CopierLock) && !s.inprog.bits[s.inprog.pages[s.copier.entry]]
    ensures Inv(Apply(s, CopierLock))
  {
    hide Consistent, ReleasedBy, Copies, InRange, Exclusive, Counted, Shadowed, Content;
    SkipWork(s);
    PassedAreCopied(s);
    SameInv(s, s.(copier := At(s.copier.entry + 1)));
  }

  lemma CopierLockKeeps(s: State)
    requires Inv(s) && Enabled(s, CopierLock)
    ensures Inv(Apply(s, CopierLock))
  {
    var p := s.inprog.pages[s.copier.entry];
    if s.inprog.bits[p] {
      CopierLockStarts(s);
      StartKeeps(s, Apply(s, CopierLock), COPIER, p, Closest(s.info.free, p));
    } else {
      CopierSkips(s);
    }
  }

  lemma FinishKeeps(s: State, s': State, w: int, p: nat, c: nat)
    requires Inv(s) && Shape(s') && Protected(s') && Finishes(s, s', w, p, c)
    requires s'.cur == s.cur
    requires Progress(s')
    ensures Inv(s')
  {
    FinishExclusive(s, s', w, p, c);
    FinishCounted(s, s', w, p, c);
    FinishShadowed(s, s', w, p, c);
    FinishContent(s, s', w, p, c);
  }

  lemma FinishCopyFinishes(s: State, t: nat)
    requires Inv(s) && Enabled(s, FinishCopy(t))
    ensures var s' := Apply(s, FinishCopy(t));
      && Finishes(s, s', t, PcOf(s, t).page, PcOf(s, t).dest) && Shape(s') && Protected(s') && s'.copier == s.copier && s'.cur == s.cur
  {
    hide Consistent, Shadowed, Content, Counted, Progress;
    var s' := Apply(s, FinishCopy(t));
    assert Copies(s, t, PcOf(s, t).page, PcOf(s, t).dest);
    assert forall u, q, dest :: u != t ==> (Copies(s', u, q, dest) <==> Copies(s, u, q, dest));
  }

  lemma FinishCopyKeeps(s: State, t: nat)
    requires Inv(s) && Enabled(s, FinishCopy(t))
    ensures Inv(Apply(s, FinishCopy(t)))
  {
    var p, c := PcOf(s, t).page, PcOf(s, t).dest;
    hide Protected, Exclusive, Counted, Shadowed, Content, Apply, Finishes;
    var s' := Apply(s, FinishCopy(t));
    FinishCopyFinishes(s, t);
    FinishInFlight(s, s', t, p, c);
    HandlerProgress(s, s', t, p, c);
    FinishKeeps(s, s', t, p, c);
  }

  lemma HandlerProgress(s: State, s': State, t: nat, p: nat, c: nat)
    requires Shape(s) && Exclusive(s) && Progress(s) && Shape(s') && Finishes(s, s', t, p, c)
    requires s'.copier == s.copier
    requires forall q :: q in s'.h.copied && s'.inprog.bits[q] ==> InFlight(s', q)
    ensures Progress(s')
  {
    hide InFlight, Consistent;
    assert Copies(s, t, p, c);
  }

  lemma CopierFinishFinishes(s: State)
    requires Inv(s) && Enabled(s, CopierFinish)
    ensures var s' := Apply(s, CopierFinish);
      && Finishes(s, s', COPIER, s.inprog.pages[s.copier.entry], s.copier.dest) && Shape(s') && Protected(s')
      && s'.copier == At(s.copier.entry + 1) && s'.cur == s.cur
  {
    hide Consistent, Shadowed, Content, Counted, Progress;
    var s' := Apply(s, CopierFinish);
    assert Copies(s, COPIER, s.inprog.pages[s.copier.entry], s.copier.dest);
    assert forall u, q, dest :: u != COPIER ==> (Copies(s', u, q, dest) <==> Copies(s, u, q, dest));
  }

  lemma CopierFinishKeeps(s: State)
    requires Inv(s) && Enabled(s, CopierFinish)
    ensures Inv(Apply(s, CopierFinish))
  {
    hide Protected, Exclusive, Counted, Shadowed, Content, Apply, Finishes;
    CopierFinishFinishes(s);
    var p, c := s.inprog.pages[s.copier.entry], s.copier.dest;
    var s' := Apply(s, CopierFinish);
    FinishInFlight(s, s', COPIER, p, c);
    CopierProgress(s, s', p, c);
    FinishKeeps(s, s', COPIER, p, c);
  }

  lemma CopierProgress(s: State, s': State, p: nat, c: nat)
    requires Shape(s) && Exclusive(s) && Progress(s) && Shape(s') && Finishes(s, s', COPIER, p, c)
    requires s.copier.CopyingEntry? && p == s.inprog.pages[s.copier.entry] && s'.copier == At(s.copier.entry + 1)
    requires forall q :: q in s'.h.copied && s'.inprog.bits[q] ==> InFlight(s', q)
    ensures Progress(s')
  {
    hide InFlight, Consistent;
    assert Copies(s, COPIER, p, c);
  }

  /** There is room in the list: it holds distinct pages of the region, and `p` is not among them. */
  lemma RoomInList(pages: seq<nat>, n: nat, p: nat)
    requires NoDuplicates(pages) && p < n && p !in pages
    requires forall i :: 0 <= i < |pages| ==> pages[i] < n
    ensures |pages| < n
  {
    DistinctCardinality(pages);
    assert p in Upto(n) && p !in Elements(pages);
    SubsetCardinality(Elements(pages), Upto(n));
  }

  function Dirtied(s: State, p: nat): State
    requires p < |s.cur.bits|
  {
    s.(cur := s.cur.(bits := s.cur.bits[p := true], pages := s.cur.pages + [p]))
  }

  lemma SetDirtyProtected(s: State, p: nat)
    requires Shape(s) && Protected(s) && p < |s.region| && !s.cur.bits[p] && !s.inprog.bits[p]
    ensures Shape(Dirtied(s, p)) && Protected(Dirtied(s, p))
  {
    hide Consistent;
    var s' := Dirtied(s, p);
    assert forall q :: q in s'.cur.pages <==> q in s.cur.pages || q == p;
    assert p !in s.cur.pages;
  }

  lemma SetDirty(s: State, p: nat)
    requires Inv(s) && p < |s.region| && !s.cur.bits[p] && !s.inprog.bits[p]
    ensures Inv(Dirtied(s, p))
  {
    hide Consistent, Exclusive, Counted, Shadowed, Content, ReleasedBy;
    var s' := Dirtied(s, p);
    SetDirtyProtected(s, p);
    assert SameWork(s, s') by {
      assert forall u, q, dest :: Copies(s', u, q, dest) <==> Copies(s, u, q, dest);
    }
    SameInv(s, s');
  }

  lemma MarkDirtyKeeps(s: State, t: nat)
    requires Inv(s) && Enabled(s, MarkDirty(t))
    ensures Inv(Apply(s, MarkDirty(t)))
  {
    var p := PcOf(s, t).page;
    if s.cur.bits[p] {
      PcMove(s, t, Unprotect(p));
    } else {
      assert p !in s.cur.pages;
      RoomInList(s.cur.pages, |s.region|, p);
      SetDirty(s, p);
      PcMove(Dirtied(s, p), t, Unprotect(p));
    }
  }

  lemma LiftKeeps(s: State, t: nat)
    requires Inv(s) && Enabled(s, LiftProtection(t))
    ensures Inv(Apply(s, LiftProtection(t)))
  {
    hide Consistent, Exclusive, Counted, Shadowed, Content, ReleasedBy;
    var p := PcOf(s, t).page;
    var s' := s.(writable := s.writable[p := true]);
    assert SameWork(s, s') by {
      assert forall u, q, dest :: Copies(s', u, q, dest) <==> Copies(s, u, q, dest);
    }
    SameInv(s, s');
    PcMove(s', t, InTxn);
  }

  lemma SwapKeeps(s: State)
    requires Inv(s) && Enabled(s, Swap)
    ensures Inv(Apply(s, Swap))
  {
    hide Consistent;
    var s' := Apply(s, Swap);
    assert forall p :: 0 <= p < |s.region| ==> !s.inprog.bits[p];
    assert forall w, p, dest :: !Copies(s, w, p, dest) && !Copies(s', w, p, dest);
    assert Shape(s') && Protected(s') && Exclusive(s');
    assert forall p :: p !in s.h.copied;
    assert Finished(s') == {} && Finished(s) == {};
    assert Shadowed(s') && Content(s');
  }

  lemma AllFinished(s: State)
    requires Inv(s) && Enabled(s, Complete)
    ensures forall p :: 0 <= p < |s.region| ==> !s.inprog.bits[p]
    ensures |s.inprog.pages| == s.inprog.ckptWritten + s.inprog.demandWritten
  {
    assert forall j :: 0 <= j < |s.inprog.pages| ==> !s.inprog.bits[s.inprog.pages[j]];
    assert Finished(s) == Elements(s.inprog.pages);
    DistinctCardinality(s.inprog.pages);
  }

  lemma CompleteKeeps(s: State)
    requires Inv(s) && Enabled(s, Complete)
    ensures Inv(Apply(s, Complete))
  {
    hide Consistent, Exclusive, Counted, Shadowed, Content;
    CompleteShape(s);
    CompleteFiles(s);
  }

  lemma CompleteShape(s: State)
    requires Inv(s) && Enabled(s, Complete)
    ensures var s' := Apply(s, Complete);
      !s'.failed && Shape(s') && Protected(s') && Exclusive(s') && Counted(s')
  {
    hide Consistent, Shadowed, Content;
    AllFinished(s);
    var s' := Apply(s, Complete);
    CompletedConsistent(s.info, |s.region|);
    assert forall w, p, dest :: !Copies(s, w, p, dest);
    assert forall w, p, dest :: Copies(s', w, p, dest) ==> Copies(s, w, p, dest);
    assert Finished(s') == {};
  }

  lemma CompleteFiles(s: State)
    requires Inv(s) && Enabled(s, Complete) && Shape(Apply(s, Complete))
    ensures Progress(Apply(s, Complete)) && Shadowed(Apply(s, Complete)) && Content(Apply(s, Complete))
  {
    hide Copies, Consistent, InRange;
    AllFinished(s);
    PlacesNotFree(s.info, |s.region|);
  }

  lemma EventKeeps(s: State, e: Event)
    requires Inv(s) && Enabled(s, e)
    ensures Inv(Apply(s, e))
  {
    hide Consistent, Exclusive, Counted, Shadowed, Content;
    match e
    case Begin(t) => PcMove(s, t, InTxn);
    case End(t) => PcMove(s, t, Idle);
    case Store(t, p, v) => StoreKeeps(s, t, p, v);
    case Fault(t, p) => PcMove(s, t, Peek(p));
    case PeekBit(t) =>
      var p := PcOf(s, t).page;
      PcMove(s, t, if s.inprog.bits[p] then WantLock(p) else Mark(p));
    case Lock(t) => LockKeeps(s, t);
    case FinishCopy(t) => FinishCopyKeeps(s, t);
    case MarkDirty(t) => MarkDirtyKeeps(s, t);
    case LiftProtection(t) => LiftKeeps(s, t);
    case Swap => SwapKeeps(s);
    case CopierLock => CopierLockKeeps(s);
    case CopierFinish => CopierFinishKeeps(s);
    case Complete => CompleteKeeps(s);
  }
}
