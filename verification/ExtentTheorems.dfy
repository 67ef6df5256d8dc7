/** Every event keeps the file tiled and the free lists mirrored; what follows for whole runs. */
module ExtentTheorems {
  import opened ExtentSets
  import opened Extents

  /** Two sets of extents of the tiling have no offset in common. */
  lemma OffsetsDiffer(s: Space, e: Extent, f: Extent)
    requires Tiled(s) && e in All(s) && f in All(s) && e != f
    ensures e.offset != f.offset
  {
    hide AsSet, Has;
    assert Aligned(e, s.length) && Aligned(f, s.length);
  }

  lemma FreedList(s: Space, x: Extent)
    requires Tiled(s) && x in s.live
    ensures AsSet(InsertAll(s.newFree, map[x.offset := x.size])) == AsSet(s.newFree) + {x}
  {
    hide AsSet, Tiles;
    KeyIn(s.newFree, x.offset);
    if x.offset in s.newFree {
      OffsetsDiffer(s, x, Extent(x.offset, s.newFree[x.offset]));
    }
    assert InsertAll(s.newFree, map[x.offset := x.size]) == s.newFree[x.offset := x.size];
    AsSetGrows(s.newFree, x);
  }

  lemma MoveOne(a: set<Extent>, b: set<Extent>, c: set<Extent>, x: Extent)
    requires a !! b && a !! c && b !! c && x in c
    ensures a + (b + {x}) + (c - {x}) == a + b + c
    ensures a !! b + {x} && a !! c - {x} && b + {x} !! c - {x}
  {
  }

  lemma FreeKeepsInv(s: Space, x: Extent)
    requires Inv(s) && Enabled(s, Free(x))
    ensures Inv(Apply(s, Free(x)))
  {
    hide AsSet, Tiles, Mirrored, Kept, Recorded, InsertAll;
    var t := Apply(s, Free(x));
    FreedList(s, x);
    MoveOne(AsSet(s.byOffset), AsSet(s.newFree), s.live, x);
    SameFree(s, t);
  }

  lemma SameFree(s: Space, t: Space)
    requires t.freeSpace == s.freeSpace && t.byOffset == s.byOffset
    requires t.committed == s.committed && t.length == s.length && t.stored == s.stored && t.live <= s.live
    ensures Mirrored(s) ==> Mirrored(t)
    ensures Kept(s) ==> Kept(t)
    ensures Recorded(s) ==> Recorded(t)
  {
  }

  lemma JoinedLists(s: Space)
    requires Tiled(s)
    ensures AsSet(InsertAll(s.byOffset, s.newFree)) == AsSet(s.byOffset) + AsSet(s.newFree)
  {
    hide AsSet, Tiled;
    var m := InsertAll(s.byOffset, s.newFree);
    forall e ensures e in AsSet(m) <==> e in AsSet(s.byOffset) + AsSet(s.newFree) {
      KeyIn(s.byOffset, e.offset);
      if e in AsSet(s.newFree) && e.offset in s.byOffset {
        NoSharedKey(s, e);
      }
    }
  }

  lemma NoSharedKey(s: Space, e: Extent)
    requires Tiled(s) && e in AsSet(s.newFree)
    ensures e.offset !in s.byOffset
  {
    hide AsSet, Tiles;
    KeyIn(s.byOffset, e.offset);
    if e.offset in s.byOffset {
      OffsetsDiffer(s, e, Extent(e.offset, s.byOffset[e.offset]));
    }
  }

  lemma CommitKeepsInv(s: Space, merged: OffsetMap)
    requires Inv(s) && Enabled(s, Commit(merged))
    ensures Inv(Apply(s, Commit(merged)))
  {
    hide AsSet, Tiles, SameBytes, Canonical, Mirrored, Kept;
    var t := Apply(s, Commit(merged));
    JoinedLists(s);
    TilesReplaced(AsSet(s.byOffset) + AsSet(s.newFree), s.live, AsSet(merged), s.length);
    assert AsSet(map[]) == {};
    assert All(t) == AsSet(merged) + s.live;
    CommitKept(t);
  }

  lemma CommitKept(t: Space)
    requires t.freeSpace == multiset(AsSet(t.byOffset)) && t.committed == t.live && Tiles(AsSet(t.byOffset) + t.live, t.length)
    requires AsSet(t.byOffset) !! t.live
    ensures Mirrored(t) && Kept(t)
  {
    hide AsSet, Has;
    assert forall e :: e in t.live ==> e in AsSet(t.byOffset) + t.live && Aligned(e, t.length);
  }

  // ---- clear

  /** The gaps that `insert` does not drop: those whose start is not pending. */
  ghost function NewGaps(s: Space, gaps: OffsetMap): set<Extent>
  {
    set g | g in AsSet(gaps) && g.offset !in s.newFree
  }

  lemma ClearedPending(s: Space, gaps: OffsetMap)
    ensures AsSet(InsertAll(s.newFree, gaps)) == AsSet(s.newFree) + NewGaps(s, gaps)
  {
    hide AsSet;
    var m := InsertAll(s.newFree, gaps);
    forall e ensures e in AsSet(m) <==> e in AsSet(s.newFree) + NewGaps(s, gaps) {
      KeyIn(s.newFree, e.offset);
    }
  }

  /** Pending and live bytes are the bytes that are not free. */
  lemma GapBytes(s: Space, gaps: OffsetMap, x: int)
    requires Tiled(s) && IsComplement(gaps, s.byOffset, s.length)
    ensures Has(AsSet(s.newFree), x) ==> Has(AsSet(gaps), x)
    ensures Has(AsSet(gaps), x) ==> 0 <= x < s.length && !Has(AsSet(s.byOffset), x)
    ensures 0 <= x < s.length && !Has(AsSet(s.byOffset), x) ==> Has(AsSet(gaps), x)
  {
    hide AsSet;
    if Has(AsSet(s.newFree), x) {
      var e := CoverOf(AsSet(s.newFree), x);
      assert e in All(s) && Aligned(e, s.length);
      NotBoth(s, e, x);
    }
  }

  lemma NotBoth(s: Space, e: Extent, x: int)
    requires Tiled(s) && e in AsSet(s.newFree) && Covers(e, x)
    ensures !Has(AsSet(s.byOffset), x)
  {
    hide AsSet;
    forall f | f in AsSet(s.byOffset) ensures !Covers(f, x) {
      assert e in All(s) && f in All(s) && e != f;
    }
  }

  /** Under the condition, a gap is either all pending, with its start, or has no pending byte. */
  lemma NewGapIsLive(s: Space, gaps: OffsetMap, g: Extent, x: int)
    requires Tiled(s) && IsComplement(gaps, s.byOffset, s.length) && WholeGaps(s, gaps)
    requires g in NewGaps(s, gaps) && Covers(g, x)
    ensures !Has(AsSet(s.newFree), x)
  {
    hide AsSet, Tiled;
    Edges(AsSet(gaps), g);
    if Has(AsSet(s.newFree), x) {
      assert Covers(g, g.offset) && Has(AsSet(s.newFree), g.offset);
      var p := CoverOf(AsSet(s.newFree), g.offset);
      assert p.offset < g.offset ==> Covers(p, g.offset - 1);
      if p.offset < g.offset {
        Covered(AsSet(s.newFree), p, g.offset - 1);
        GapBytes(s, gaps, g.offset - 1);
      }
    }
  }

  lemma OldGapIsPending(s: Space, gaps: OffsetMap, g: Extent, x: int)
    requires Tiled(s) && WholeGaps(s, gaps) && Canonical(AsSet(gaps))
    requires g in AsSet(gaps) && g.offset in s.newFree && Covers(g, x)
    ensures Has(AsSet(s.newFree), x)
  {
    hide AsSet;
    KeyIn(s.newFree, g.offset);
    var p := Extent(g.offset, s.newFree[g.offset]);
    assert p in All(s) && Aligned(p, s.length);
    Covered(AsSet(s.newFree), p, g.offset);
    assert Covers(g, g.offset);
  }

  lemma GapsAligned(s: Space, gaps: OffsetMap)
    requires Tiled(s) && IsComplement(gaps, s.byOffset, s.length)
    ensures forall g :: g in AsSet(gaps) ==> Aligned(g, s.length)
  {
    hide AsSet, Canonical, Disjoint;
    var free := AsSet(s.byOffset);
    assert forall e :: e in free ==> e in All(s) && Aligned(e, s.length);
    UnitsOfTiles(free, s.length);
    hide Tiled;
    forall x, y | Has(AsSet(gaps), x) && x / ALIGNMENT == y / ALIGNMENT ensures Has(AsSet(gaps), y) {
      SameUnit(0, x, y);
      SameUnit(s.length, x, y);
      assert Has(free, y) ==> Has(free, x);
    }
    CanonicalAligned(AsSet(gaps), s.length);
  }

  /** What the bytes of a gap of the second kind meet: no free, no pending extent. */
  lemma NewGapApart(s: Space, gaps: OffsetMap, g: Extent, e: Extent)
    requires Tiled(s) && IsComplement(gaps, s.byOffset, s.length) && WholeGaps(s, gaps)
    requires g in NewGaps(s, gaps) && e in AsSet(s.byOffset) + AsSet(s.newFree)
    ensures Apart(g, e)
  {
    hide AsSet, Has, WholeGaps;
    assert e in All(s) && Aligned(e, s.length);
    hide Tiled;
    GapsAligned(s, gaps);
    forall x | Covers(g, x) ensures !Covers(e, x) {
      Covered(AsSet(gaps), g, x);
      NewGapIsLive(s, gaps, g, x);
      GapBytes(s, gaps, x);
      if Covers(e, x) {
        if e in AsSet(s.byOffset) {
          Covered(AsSet(s.byOffset), e, x);
        } else {
          Covered(AsSet(s.newFree), e, x);
        }
      }
    }
    NoShared(g, e);
  }

  lemma ClearedSets(s: Space, gaps: OffsetMap)
    requires Tiled(s) && IsComplement(gaps, s.byOffset, s.length) && WholeGaps(s, gaps)
    ensures AsSet(s.byOffset) !! AsSet(s.newFree) + NewGaps(s, gaps)
    ensures Disjoint(AsSet(s.byOffset) + AsSet(s.newFree) + NewGaps(s, gaps))
    ensures forall e :: e in AsSet(s.byOffset) + AsSet(s.newFree) + NewGaps(s, gaps) ==> Aligned(e, s.length)
  {
    hide AsSet, Has, WholeGaps;
    GapsAligned(s, gaps);
    var old', new' := AsSet(s.byOffset) + AsSet(s.newFree), NewGaps(s, gaps);
    forall g, e | g in new' && e in old' ensures Apart(g, e) {
      NewGapApart(s, gaps, g, e);
    }
    assert forall e :: e in old' ==> e in All(s) && Aligned(e, s.length);
    assert forall g :: g in new' ==> g in AsSet(gaps) && !Apart(g, g);
  }

  /** The extent that covers a byte after clearing the file. */
  lemma ClearedCover(s: Space, gaps: OffsetMap, x: int)
    requires Tiled(s) && IsComplement(gaps, s.byOffset, s.length) && WholeGaps(s, gaps)
    requires 0 <= x < s.length
    ensures Has(AsSet(s.byOffset) + AsSet(s.newFree) + NewGaps(s, gaps), x)
  {
    hide AsSet, Has, WholeGaps, Canonical;
    var t := AsSet(s.byOffset) + AsSet(s.newFree) + NewGaps(s, gaps);
    GapBytes(s, gaps, x);
    if Has(AsSet(s.byOffset), x) {
      Covered(t, CoverOf(AsSet(s.byOffset), x), x);
    } else {
      var g := CoverOf(AsSet(gaps), x);
      if g.offset in s.newFree {
        OldGapIsPending(s, gaps, g, x);
        Covered(t, CoverOf(AsSet(s.newFree), x), x);
      } else {
        Covered(t, g, x);
      }
    }
  }

  lemma ClearKeepsTiled(s: Space, gaps: OffsetMap)
    requires Tiled(s) && IsComplement(gaps, s.byOffset, s.length) && WholeGaps(s, gaps)
    ensures Tiled(Apply(s, Clear(gaps)))
  {
    hide AsSet, Has, WholeGaps, IsComplement, Disjoint, InsertAll;
    var t := Apply(s, Clear(gaps));
    ClearedPending(s, gaps);
    ClearedSets(s, gaps);
    assert All(t) == AsSet(s.byOffset) + AsSet(s.newFree) + NewGaps(s, gaps);
    forall x | 0 <= x < s.length ensures Has(All(t), x) {
      ClearedCover(s, gaps, x);
    }
  }

  /** A gap that is pending in part is either counted twice or lost. */
  lemma ClearBreaks(s: Space, gaps: OffsetMap, g: Extent, x: int, y: int)
    requires Tiled(s) && IsComplement(gaps, s.byOffset, s.length)
    requires g in AsSet(gaps) && Covers(g, x) && Covers(g, y)
    requires Has(AsSet(s.newFree), x) && !Has(AsSet(s.newFree), y)
    ensures !Tiled(Apply(s, Clear(gaps)))
  {
    hide AsSet, Has, InsertAll;
    var t := Apply(s, Clear(gaps));
    ClearedPending(s, gaps);
    var pending, new' := AsSet(s.newFree), NewGaps(s, gaps);
    if g.offset in s.newFree {
      GapBytes(s, gaps, y);
      Covered(AsSet(gaps), g, y);
      forall e | e in All(t) ensures !Covers(e, y) {
        if e in AsSet(s.byOffset) && Covers(e, y) {
          Covered(AsSet(s.byOffset), e, y);
        }
        if e in pending && Covers(e, y) {
          Covered(pending, e, y);
        }
        if e in new' && Covers(e, y) {
          OneCover(AsSet(gaps), e, g, y);
        }
      }
      NobodyCovers(All(t), y);
    } else {
      var p := CoverOf(pending, x);
      assert p in All(t) && g in All(t);
      if p == g {
        Covered(pending, p, y);
      }
    }
  }

  lemma NobodyCovers(s: set<Extent>, x: int)
    requires forall e :: e in s ==> !Covers(e, x)
    ensures !Has(s, x)
  {
  }

  /**
   Clearing the file keeps its bytes accounted for exactly when every gap between free extents is
   pending as a whole or not at all; with nothing freed since the last commit that is so.
   */
  lemma ClearKeepsTiling(s: Space, gaps: OffsetMap)
    requires Inv(s) && Enabled(s, Clear(gaps))
    ensures WholeGaps(s, gaps) <==> Inv(Apply(s, Clear(gaps)))
    ensures s.newFree == map[] ==> WholeGaps(s, gaps)
  {
    hide AsSet, Has, Tiled, Mirrored, Kept, Recorded;
    if WholeGaps(s, gaps) {
      ClearKeepsTiled(s, gaps);
      SameFree(s, Apply(s, Clear(gaps)));
    } else {
      var g, x, y :| g in AsSet(gaps) && Covers(g, x) && Covers(g, y) && Has(AsSet(s.newFree), x) && !Has(AsSet(s.newFree), y);
      ClearBreaks(s, gaps, g, x, y);
    }
    if s.newFree == map[] {
      NothingPending(s);
    }
  }

  lemma NothingPending(s: Space)
    requires s.newFree == map[]
    ensures forall x :: !Has(AsSet(s.newFree), x)
  {
  }

  // ---- whole runs

  ghost predicate ValidRun(s: Space, es: seq<Event>)
    decreases |es|
  {
    es == [] || (Enabled(s, es[0]) && ValidRun(Apply(s, es[0]), es[1..]))
  }

  function Exec(s: Space, es: seq<Event>): Space
    decreases |es|
  {
    if es == [] then s else Exec(Apply(s, es[0]), es[1..])
  }

  /** The file is cleared only when no gap is pending in part. */
  ghost predicate CleanRun(s: Space, es: seq<Event>)
    decreases |es|
  {
    es == [] ||
    ((es[0].Clear? ==> WholeGaps(s, es[0].gaps)) && CleanRun(Apply(s, es[0]), es[1..]))
  }

  lemma EventKeepsInv(s: Space, e: Event)
    requires Inv(s) && Enabled(s, e) && (e.Clear? ==> WholeGaps(s, e.gaps))
    ensures Inv(Apply(s, e))
  {
    hide Inv, Apply, Enabled;
    match e
    case Allocate(size, from) => AllocateKeepsInv(s, size, from);
    case Free(x) => FreeKeepsInv(s, x);
    case Clear(gaps) => ClearKeepsTiling(s, gaps);
    case Commit(merged) => CommitKeepsInv(s, merged);
  }

  lemma FreshInv()
    ensures Inv(Fresh)
  {
  }

  /**
   Extent tiling, over every run: free, pending and live extents tile the file in units of 64 bytes,
   the two free lists are mirror images, and no extent live at the last commit meets free space.
   */
  lemma {:induction false} RunKeepsInv(s: Space, es: seq<Event>)
    requires Inv(s) && ValidRun(s, es) && CleanRun(s, es)
    ensures Inv(Exec(s, es))
    decreases |es|
  {
    hide Inv, Apply, Enabled, WholeGaps;
    if es != [] {
      EventKeepsInv(s, es[0]);
      RunKeepsInv(Apply(s, es[0]), es[1..]);
    }
  }

  /**
   What `allocate` hands out in any run: room for the entry, whole units, and not one byte of any
   extent that was live at the last commit, nor of a live or pending one.
   */
  lemma AllocatedIsSafe(es: seq<Event>, size: nat, from: Extent)
    requires ValidRun(Fresh, es) && CleanRun(Fresh, es) && Enabled(Exec(Fresh, es), Allocate(size, from))
    ensures var s := Exec(Fresh, es); var e := Extent(from.offset, Needed(size));
      && e in Apply(s, Allocate(size, from)).live && e.size >= size + SIZE_HEADER && e.size % ALIGNMENT == 0
      && (forall c :: c in s.committed ==> Apart(c, e))
      && (forall f :: f in s.live || f in AsSet(s.newFree) ==> Apart(f, e))
  {
    hide Inv, Enabled, ValidRun, CleanRun;
    FreshInv();
    RunKeepsInv(Fresh, es);
    CarvedApart(Exec(Fresh, es), size, from);
  }

  lemma CarvedApart(s: Space, size: nat, from: Extent)
    requires Inv(s) && Enabled(s, Allocate(size, from))
    ensures var e := Extent(from.offset, Needed(size));
      && e in Apply(s, Allocate(size, from)).live && e.size >= size + SIZE_HEADER && e.size % ALIGNMENT == 0
      && (forall c :: c in s.committed ==> Apart(c, e))
      && (forall f :: f in s.live || f in AsSet(s.newFree) ==> Apart(f, e))
  {
    hide AsSet, Has, Needed, Grown, Tiled, Mirrored, Kept, Recorded, Apart, WriteAt;
    NeededIsUnits(size);
    GrowKeepsInv(s, Needed(size));
    var t := Grown(s, Needed(size));
    BestIsFree(t, Needed(size), from);
    GrownKeepsOthers(s, Needed(size));
    CarvedIsApart(t, from, Needed(size));
  }

  /**
   Space is used sparingly, in every run.  If some free extent is large enough, the file does not grow, and
   none of those large enough is smaller than the one that is taken.  If none is, the file grows by the
   larger of what is needed and 64 MB, and the entry goes to the start of the new part.
   */
  lemma AllocationIsFrugal(es: seq<Event>, size: nat, from: Extent)
    requires ValidRun(Fresh, es) && CleanRun(Fresh, es) && Enabled(Exec(Fresh, es), Allocate(size, from))
    ensures var s := Exec(Fresh, es); var t := Apply(s, Allocate(size, from));
      if exists f :: f in AsSet(s.byOffset) && f.size >= Needed(size) then
        && t.length == s.length && from in AsSet(s.byOffset) && from.size >= Needed(size)
        && forall f :: f in AsSet(s.byOffset) && f.size >= Needed(size) ==> from.size <= f.size
      else
        && t.length == s.length + (if Needed(size) > 0x400_0000 then Needed(size) else 0x400_0000)
        && from == Extent(s.length, t.length - s.length)
  {
    hide Inv, Enabled, ValidRun, CleanRun, Apply, Needed;
    FreshInv();
    RunKeepsInv(Fresh, es);
    FrugalStep(Exec(Fresh, es), size, from);
  }

  lemma FrugalStep(s: Space, size: nat, from: Extent)
    requires Inv(s) && Enabled(s, Allocate(size, from))
    ensures var t := Apply(s, Allocate(size, from));
      if exists f :: f in AsSet(s.byOffset) && f.size >= Needed(size) then
        && t.length == s.length && from in AsSet(s.byOffset) && from.size >= Needed(size)
        && forall f :: f in AsSet(s.byOffset) && f.size >= Needed(size) ==> from.size <= f.size
      else
        && t.length == s.length + (if Needed(size) > 0x400_0000 then Needed(size) else 0x400_0000)
        && from == Extent(s.length, t.length - s.length)
  {
    hide AsSet, Tiled, Kept, Recorded, Needed, WriteAt;
    assert forall f :: f in s.freeSpace <==> f in AsSet(s.byOffset);
    var g := Grown(s, Needed(size));
    if !Fits(s.freeSpace, Needed(size)) {
      assert from in g.freeSpace && from !in s.freeSpace;
    }
  }

  lemma GrownKeepsOthers(s: Space, needed: int)
    ensures Grown(s, needed).newFree == s.newFree && Grown(s, needed).live == s.live
    ensures Grown(s, needed).committed == s.committed
  {
  }

  /** Two entries, the first of them freed, and then a clear: the second entry's bytes are lost. */
  lemma ClearLosesSpace()
    ensures
      var a, b := Extent(0, 64), Extent(64, 64);
      var es := [Allocate(56, Extent(0, EXTENSION)), Allocate(56, Extent(64, EXTENSION - 64)), Free(a)];
      && ValidRun(Fresh, es) && CleanRun(Fresh, es)
      && var s := Exec(Fresh, es);
         && s.live == {b} && Enabled(s, Clear(map[0 := 128]))
         && !Inv(Apply(s, Clear(map[0 := 128]))) && !Has(All(Apply(s, Clear(map[0 := 128]))), 64)
  {
    var a, b := Extent(0, 64), Extent(64, 64);
    var e1, e2, e3 := Allocate(56, Extent(0, EXTENSION)), Allocate(56, Extent(64, EXTENSION - 64)), Free(a);
    var es := [e1, e2, e3];
    var s1 := Space(multiset{Extent(64, EXTENSION - 64)}, map[64 := EXTENSION - 64], map[], EXTENSION, map[0 := 64], {a}, {});
    var s2 := Space(multiset{Extent(128, EXTENSION - 128)}, map[128 := EXTENSION - 128], map[], EXTENSION, map[0 := 64, 64 := 64], {a, b}, {});
    var s3 := Space(multiset{Extent(128, EXTENSION - 128)}, map[128 := EXTENSION - 128], map[0 := 64], EXTENSION,
                    map[0 := 64, 64 := 64], {b}, {});
    assert Needed(56) == 64;
    FirstEntry(e1, s1);
    SecondEntry(s1, e2, s2);
    FirstFreed(s2, e3, s3);
    ThreeSteps(es, s1, s2, s3);
    hide Inv, Enabled, Apply, WholeGaps;
    FreshInv();
    RunKeepsInv(Fresh, es);
    OneGap(s3);
    ClearKeepsTiling(s3, map[0 := 128]);
    PendingInPart(s3);
    SecondLost(s3);
  }

  /** Neither the free list nor the pending one has the bytes of the second entry. */
  lemma SecondLost(s: Space)
    requires s.byOffset == map[128 := EXTENSION - 128] && s.newFree == map[0 := 64]
    ensures !Has(All(Apply(s, Clear(map[0 := 128]))), 64)
  {
    var t := Apply(s, Clear(map[0 := 128]));
    assert t.newFree == map[0 := 64];
    NobodyCovers(All(t), 64);
  }

  lemma FirstFreed(s: Space, e: Event, t: Space)
    requires Extent(0, 64) in s.live && s.newFree == map[] && e == Free(Extent(0, 64))
    requires t == s.(newFree := map[0 := 64], live := s.live - {Extent(0, 64)})
    ensures Enabled(s, e) && Apply(s, e) == t
  {
  }

  lemma PendingInPart(s: Space)
    requires s.newFree == map[0 := 64]
    ensures !WholeGaps(s, map[0 := 128])
  {
    var a, g, pending := Extent(0, 64), Extent(0, 128), AsSet(s.newFree);
    assert pending == {a} && g in AsSet(map[0 := 128]);
    Covered(pending, a, 0);
    NobodyCovers(pending, 64);
    assert Covers(g, 0) && Covers(g, 64);
  }

  lemma FirstEntry(e: Event, s: Space)
    requires e == Allocate(56, Extent(0, EXTENSION)) && Needed(56) == 64
    requires s == Space(multiset{Extent(64, EXTENSION - 64)}, map[64 := EXTENSION - 64], map[], EXTENSION,
                        map[0 := 64], {Extent(0, 64)}, {})
    ensures Enabled(Fresh, e) && Apply(Fresh, e) == s
  {
    var g := Grown(Fresh, 64);
    assert g == Space(multiset{Extent(0, EXTENSION)}, map[0 := EXTENSION], map[], EXTENSION, map[], {}, {});
  }

  lemma SecondEntry(s: Space, e: Event, t: Space)
    requires s == Space(multiset{Extent(64, EXTENSION - 64)}, map[64 := EXTENSION - 64], map[], EXTENSION,
                        map[0 := 64], {Extent(0, 64)}, {})
    requires e == Allocate(56, Extent(64, EXTENSION - 64)) && Needed(56) == 64
    requires t == Space(multiset{Extent(128, EXTENSION - 128)}, map[128 := EXTENSION - 128], map[], EXTENSION,
                        map[0 := 64, 64 := 64], {Extent(0, 64), Extent(64, 64)}, {})
    ensures Enabled(s, e) && Apply(s, e) == t
  {
    assert Extent(64, EXTENSION - 64) in s.freeSpace;
    assert Grown(s, 64) == s;
  }

  lemma ThreeSteps(es: seq<Event>, s1: Space, s2: Space, s3: Space)
    requires |es| == 3 && !es[0].Clear? && !es[1].Clear? && !es[2].Clear?
    requires Enabled(Fresh, es[0]) && Apply(Fresh, es[0]) == s1
    requires Enabled(s1, es[1]) && Apply(s1, es[1]) == s2 && Enabled(s2, es[2]) && Apply(s2, es[2]) == s3
    ensures ValidRun(Fresh, es) && CleanRun(Fresh, es) && Exec(Fresh, es) == s3
  {
    hide Enabled, Apply;
    assert es[1..][0] == es[1] && es[1..][1..] == es[2..];
    assert es[2..][0] == es[2] && es[2..][1..] == [];
    assert ValidRun(s2, es[2..]) && CleanRun(s2, es[2..]) && Exec(s2, es[2..]) == Exec(s3, []);
    assert ValidRun(s1, es[1..]) && CleanRun(s1, es[1..]) && Exec(s1, es[1..]) == s3;
  }

  lemma OneGap(s: Space)
    requires s.byOffset == map[128 := EXTENSION - 128] && s.length == EXTENSION
    ensures Enabled(s, Clear(map[0 := 128]))
  {
    var gaps, free := AsSet(map[0 := 128]), AsSet(s.byOffset);
    assert gaps == {Extent(0, 128)} && free == {Extent(128, EXTENSION - 128)};
    forall x ensures Has(gaps, x) <==> 0 <= x < EXTENSION && !Has(free, x) {
      assert Has(gaps, x) <==> Covers(Extent(0, 128), x);
      assert Has(free, x) <==> Covers(Extent(128, EXTENSION - 128), x);
    }
  }
}
