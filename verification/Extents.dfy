/**
 The space of a checkpoint file as a protocol: entries are allocated and freed, the file is cleared,
 and commits turn the space freed since the last one into free space.
 */
module Extents {
  import opened ExtentSets

  const EXTENSION: int := 64 * 1024 * 1024
  const SIZE_HEADER: int := 8

  type OffsetMap = map<int, int>

  function AsSet(m: OffsetMap): (s: set<Extent>)
    ensures forall e :: e in s <==> e.offset in m && m[e.offset] == e.size
  {
    set o | o in m :: Extent(o, m[o])
  }

  /**
   The free space by size and by offset, the space freed since the last commit, and the size headers
   in the file by their offsets.  `live` and `committed`, the entries now and at the last commit, are
   history that no event reads.
   */
  datatype Space = Space(
    freeSpace: multiset<Extent>, byOffset: OffsetMap, newFree: OffsetMap, length: int, stored: OffsetMap,
    live: set<Extent>, committed: set<Extent>)

  datatype Event =
    | Allocate(size: nat, from: Extent)
    | Free(e: Extent)
    | Clear(gaps: OffsetMap)
    | Commit(merged: OffsetMap)

  const Fresh: Space := Space(multiset{}, map[], map[], 0, map[], {}, {})

  /** Room for the entry and its size header, in whole units. */
  function Needed(size: nat): int
  {
    var n := size + SIZE_HEADER;
    (n / ALIGNMENT + (if n % ALIGNMENT != 0 then 1 else 0)) * ALIGNMENT
  }

  /** `lower_bound` in the free space by size: the least size that is enough. */
  predicate BestFit(free: multiset<Extent>, needed: int, e: Extent)
  {
    e in free && needed <= e.size && forall f :: f in free && needed <= f.size ==> e.size <= f.size
  }

  predicate Fits(free: multiset<Extent>, needed: int)
  {
    exists e :: e in free && needed <= e.size
  }

  function Grown(s: Space, needed: int): Space
  {
    if Fits(s.freeSpace, needed) then s
    else
      var n := if EXTENSION < needed then needed else EXTENSION;
      s.(freeSpace := s.freeSpace + multiset{Extent(s.length, n)},
         byOffset := s.byOffset[s.length := n], length := s.length + n)
  }

  function Carved(s: Space, e: Extent, needed: int): Space
  {
    var left := Extent(e.offset + needed, e.size - needed);
    var free := s.freeSpace - multiset{e};
    s.(freeSpace := if left.size > 0 then free + multiset{left} else free,
       byOffset := if left.size > 0 then (s.byOffset - {e.offset})[left.offset := left.size] else s.byOffset - {e.offset},
       live := s.live + {Extent(e.offset, needed)})
  }

  /** Writing `n` bytes at an offset, the size first, destroys every header that they meet. */
  function WriteAt(stored: OffsetMap, offset: int, n: int, size: int): OffsetMap
  {
    (map o | o in stored && (o + SIZE_HEADER <= offset || offset + n <= o) :: stored[o])[offset := size]
  }

  function Written(s: Space, offset: int, n: int, size: int): Space
  {
    s.(stored := WriteAt(s.stored, offset, n, size))
  }

  /** `std::map::insert` of a range: what is there already stays. */
  function InsertAll(m: OffsetMap, more: OffsetMap): OffsetMap
  {
    more + m
  }

  /** The complement of the free extents, as maximal runs. */
  ghost predicate IsComplement(gaps: OffsetMap, free: OffsetMap, length: int)
  {
    Canonical(AsSet(gaps)) && forall x :: Has(AsSet(gaps), x) <==> 0 <= x < length && !Has(AsSet(free), x)
  }

  ghost predicate IsMerged(merged: OffsetMap, m: OffsetMap)
  {
    Canonical(AsSet(merged)) && SameBytes(AsSet(m), AsSet(merged))
  }

  ghost predicate Enabled(s: Space, e: Event)
  {
    match e
    case Allocate(size, from) => BestFit(Grown(s, Needed(size)).freeSpace, Needed(size), from)
    case Free(x) => x in s.live
    case Clear(gaps) => IsComplement(gaps, s.byOffset, s.length)
    case Commit(merged) => IsMerged(merged, InsertAll(s.byOffset, s.newFree))
  }

  function Apply(s: Space, e: Event): Space
  {
    match e
    case Allocate(size, from) =>
      Written(Carved(Grown(s, Needed(size)), from, Needed(size)), from.offset, SIZE_HEADER + size, Needed(size))
    case Free(x) => s.(newFree := InsertAll(s.newFree, map[x.offset := x.size]), live := s.live - {x})
    case Clear(gaps) => s.(newFree := InsertAll(s.newFree, gaps), live := {})
    case Commit(merged) =>
      s.(freeSpace := multiset(AsSet(merged)), byOffset := merged, newFree := map[], committed := s.live)
  }

  // ---- the invariant

  /** Every extent of the file: free, freed since the last commit, live. */
  function All(s: Space): set<Extent>
  {
    AsSet(s.byOffset) + AsSet(s.newFree) + s.live
  }

  ghost predicate Tiled(s: Space)
  {
    && AsSet(s.byOffset) !! AsSet(s.newFree) && AsSet(s.byOffset) !! s.live && AsSet(s.newFree) !! s.live
    && Tiles(All(s), s.length)
  }

  /** The two free lists are mirror images. */
  ghost predicate Mirrored(s: Space)
  {
    s.freeSpace == multiset(AsSet(s.byOffset))
  }

  /** No extent live at the last commit has any byte in common with free space. */
  ghost predicate Kept(s: Space)
  {
    && (forall e :: e in s.committed ==> e.size >= SIZE_HEADER && e.End() <= s.length)
    && forall e, f :: e in s.committed && f in AsSet(s.byOffset) ==> Apart(e, f)
  }

  /** At every entry, live now or at the last commit, the file holds its size. */
  ghost predicate Recorded(s: Space)
  {
    forall e :: e in s.live + s.committed ==> e.offset in s.stored && s.stored[e.offset] == e.size
  }

  ghost predicate Inv(s: Space)
  {
    Tiled(s) && Mirrored(s) && Kept(s) && Recorded(s)
  }

  /** Every gap between free extents is pending as a whole or not at all. */
  ghost predicate WholeGaps(s: Space, gaps: OffsetMap)
  {
    forall g, x, y :: g in AsSet(gaps) && Covers(g, x) && Covers(g, y) && Has(AsSet(s.newFree), x) ==>
      Has(AsSet(s.newFree), y)
  }

  // ---- allocation

  lemma NeededIsUnits(size: nat)
    ensures Needed(size) % ALIGNMENT == 0 && size + SIZE_HEADER <= Needed(size) < size + SIZE_HEADER + ALIGNMENT
  {
  }

  lemma AsSetGrows(m: OffsetMap, e: Extent)
    requires e.offset !in m
    ensures AsSet(m[e.offset := e.size]) == AsSet(m) + {e}
  {
    hide AsSet;
  }

  lemma AsSetShrinks(m: OffsetMap, e: Extent)
    requires e in AsSet(m)
    ensures AsSet(m - {e.offset}) == AsSet(m) - {e}
  {
    hide AsSet;
  }

  lemma MultisetLess(s: set<Extent>, e: Extent)
    requires e in s
    ensures multiset(s) - multiset{e} == multiset(s - {e})
  {
  }

  lemma MultisetMore(s: set<Extent>, e: Extent)
    requires e !in s
    ensures multiset(s) + multiset{e} == multiset(s + {e})
  {
  }

  lemma KeyIn(m: OffsetMap, o: int)
    ensures o in m ==> Extent(o, m[o]) in AsSet(m)
  {
  }

  lemma ThreeParts(s: Space)
    requires Tiled(s)
    ensures Disjoint(AsSet(s.byOffset)) && Positive(AsSet(s.byOffset))
    ensures forall e :: e in AsSet(s.byOffset) || e in AsSet(s.newFree) || e in s.live ==> Aligned(e, s.length)
  {
    hide AsSet, Has;
    assert forall e :: e in AsSet(s.byOffset) ==> e in All(s);
    assert forall e :: e in AsSet(s.newFree) ==> e in All(s);
  }

  /** Nothing is at the end of the file or behind it. */
  lemma Beyond(s: Space)
    requires Tiled(s)
    ensures s.length !in s.byOffset
    ensures forall n :: Extent(s.length, n) !in All(s)
  {
    hide AsSet, Has, Disjoint;
    forall e | e in All(s) ensures e.offset < s.length {
      assert Aligned(e, s.length);
    }
    KeyIn(s.byOffset, s.length);
  }

  lemma GrownFits(s: Space, needed: int)
    ensures Fits(Grown(s, needed).freeSpace, needed)
  {
    if !Fits(s.freeSpace, needed) {
      var e := Extent(s.length, Grown(s, needed).length - s.length);
      assert e in Grown(s, needed).freeSpace;
    }
  }

  /** What growing does: nothing, or one more free extent at the end of the file. */
  lemma GrownBy(s: Space, needed: int)
    requires Tiled(s) && needed > 0 && needed % ALIGNMENT == 0 && !Fits(s.freeSpace, needed)
    ensures var t := Grown(s, needed); var e := Extent(s.length, t.length - s.length);
      && e.size > 0 && e.size % ALIGNMENT == 0 && e !in All(s)
      && AsSet(t.byOffset) == AsSet(s.byOffset) + {e} && t.freeSpace == s.freeSpace + multiset{e}
      && t.newFree == s.newFree && t.stored == s.stored && t.live == s.live && t.committed == s.committed
  {
    hide AsSet, Tiled, Fits;
    var t := Grown(s, needed);
    Beyond(s);
    AsSetGrows(s.byOffset, Extent(s.length, t.length - s.length));
  }

  lemma GrowKeepsTiled(s: Space, needed: int)
    requires Tiled(s) && needed > 0 && needed % ALIGNMENT == 0
    ensures Tiled(Grown(s, needed))
  {
    hide AsSet, Tiles, Fits;
    if !Fits(s.freeSpace, needed) {
      var t := Grown(s, needed);
      var e := Extent(s.length, t.length - s.length);
      GrownBy(s, needed);
      hide Grown;
      TilesGrow(All(s), s.length, e.size);
      assert All(t) == All(s) + {e};
    }
  }

  lemma GrowKeepsMirror(s: Space, needed: int)
    requires Tiled(s) && Mirrored(s) && needed > 0 && needed % ALIGNMENT == 0
    ensures Mirrored(Grown(s, needed))
  {
    hide AsSet, Tiled, Fits;
    if !Fits(s.freeSpace, needed) {
      GrownBy(s, needed);
      hide Grown;
      MultisetMore(AsSet(s.byOffset), Extent(s.length, Grown(s, needed).length - s.length));
    }
  }

  lemma GrowKeepsKept(s: Space, needed: int)
    requires Tiled(s) && Kept(s) && needed > 0 && needed % ALIGNMENT == 0
    ensures Kept(Grown(s, needed))
  {
    hide AsSet, Tiled, Fits;
    if !Fits(s.freeSpace, needed) {
      GrownBy(s, needed);
      hide Grown;
    }
  }

  lemma GrowKeepsInv(s: Space, needed: int)
    requires Inv(s) && needed > 0 && needed % ALIGNMENT == 0
    ensures Inv(Grown(s, needed)) && Fits(Grown(s, needed).freeSpace, needed)
    ensures Grown(s, needed).stored == s.stored
    ensures Grown(s, needed).live == s.live && Grown(s, needed).committed == s.committed
  {
    hide Tiled, Mirrored, Kept, Fits;
    GrowKeepsTiled(s, needed);
    GrowKeepsMirror(s, needed);
    GrowKeepsKept(s, needed);
    GrownFits(s, needed);
    assert Recorded(Grown(s, needed));
  }

  lemma NoOverlap(m: OffsetMap, e: Extent, x: int)
    requires Disjoint(AsSet(m)) && Positive(AsSet(m)) && e in AsSet(m) && e.offset < x < e.End()
    ensures x !in m
  {
    hide AsSet;
    KeyIn(m, x);
  }

  /** The part left over takes the place of the extent it was cut from, in both lists. */
  lemma CarveLists(s: Space, e: Extent, needed: int)
    requires Mirrored(s) && Disjoint(AsSet(s.byOffset)) && Positive(AsSet(s.byOffset))
    requires e in AsSet(s.byOffset) && 0 < needed <= e.size
    ensures var t := Carved(s, e, needed); var left := Extent(e.offset + needed, e.size - needed);
      && Mirrored(t) && (needed < e.size ==> left.offset !in s.byOffset)
      && AsSet(t.byOffset) == (if needed < e.size then AsSet(s.byOffset) - {e} + {left} else AsSet(s.byOffset) - {e})
  {
    hide AsSet, Disjoint;
    var left := Extent(e.offset + needed, e.size - needed);
    AsSetShrinks(s.byOffset, e);
    MultisetLess(AsSet(s.byOffset), e);
    if needed < e.size {
      NoOverlap(s.byOffset, e, left.offset);
      AsSetGrows(s.byOffset - {e.offset}, left);
      MultisetMore(AsSet(s.byOffset) - {e}, left);
    }
  }

  /** An extent of the tiling overlaps no other, so its parts are new to it. */
  lemma PartsAreNew(s: Space, e: Extent, n: int)
    requires Tiled(s) && e in All(s) && 0 < n < e.size
    ensures Extent(e.offset, n) !in All(s) && Extent(e.offset + n, e.size - n) !in All(s)
  {
    hide AsSet, Has;
    assert Aligned(e, s.length);
    var a, b := Extent(e.offset, n), Extent(e.offset + n, e.size - n);
    assert !Apart(e, a) && !Apart(e, b);
  }

  lemma CarveKeepsTiled(s: Space, e: Extent, needed: int)
    requires Tiled(s) && Mirrored(s) && e in AsSet(s.byOffset) && 0 < needed <= e.size && needed % ALIGNMENT == 0
    ensures Tiled(Carved(s, e, needed)) && Mirrored(Carved(s, e, needed))
  {
    hide AsSet, Tiles, Mirrored;
    var t := Carved(s, e, needed);
    ThreeParts(s);
    CarveLists(s, e, needed);
    if needed < e.size {
      TilesSplit(All(s), s.length, e, needed);
      PartsAreNew(s, e, needed);
      assert All(t) == All(s) - {e} + {Extent(e.offset, needed), Extent(e.offset + needed, e.size - needed)};
    } else {
      assert Extent(e.offset, needed) == e;
      assert All(t) == All(s);
    }
  }

  lemma CarveKeepsKept(s: Space, e: Extent, needed: int)
    requires Tiled(s) && Mirrored(s) && Kept(s) && e in AsSet(s.byOffset) && 0 < needed <= e.size
    ensures Kept(Carved(s, e, needed))
  {
    hide AsSet, Tiles, Mirrored;
    ThreeParts(s);
    CarveLists(s, e, needed);
  }

  lemma BestIsFree(s: Space, needed: int, e: Extent)
    requires Mirrored(s) && BestFit(s.freeSpace, needed, e)
    ensures e in AsSet(s.byOffset)
  {
  }

  /** What is carved from a free extent meets no live, pending or committed extent. */
  lemma CarvedIsApart(t: Space, from: Extent, n: int)
    requires Tiled(t) && Kept(t) && from in AsSet(t.byOffset) && 0 < n <= from.size
    ensures forall f :: f in t.live || f in AsSet(t.newFree) || f in t.committed ==>
      Apart(f, Extent(from.offset, n)) && f.size >= SIZE_HEADER
  {
    hide AsSet, Has;
    assert from in All(t);
    forall f | f in t.live || f in AsSet(t.newFree) ensures Apart(f, Extent(from.offset, n)) && f.size >= SIZE_HEADER {
      assert f in All(t) && Apart(f, from) && Aligned(f, t.length);
    }
    forall c | c in t.committed ensures Apart(c, Extent(from.offset, n)) && c.size >= SIZE_HEADER {
      assert Apart(c, from);
    }
  }

  /** Writing within a new extent leaves the sizes of the entries that it does not meet. */
  lemma WriteKeepsRecorded(t: Space, e: Extent, n: int)
    requires Recorded(t) && SIZE_HEADER <= n <= e.size
    requires forall f :: f in t.live || f in t.committed ==> Apart(f, e) && f.size >= SIZE_HEADER
    ensures Recorded(Written(t.(live := t.live + {e}), e.offset, n, e.size))
  {
  }

  lemma WriteKeepsRest(s: Space, offset: int, n: int, size: int)
    ensures Tiled(s) ==> Tiled(Written(s, offset, n, size))
    ensures Mirrored(s) ==> Mirrored(Written(s, offset, n, size))
    ensures Kept(s) ==> Kept(Written(s, offset, n, size))
  {
    hide AsSet, Tiles, WriteAt;
  }

  lemma CarveThenWrite(t: Space, from: Extent, needed: int, n: int)
    requires Recorded(Written(t.(live := t.live + {Extent(from.offset, needed)}), from.offset, n, needed))
    ensures Recorded(Written(Carved(t, from, needed), from.offset, n, needed))
  {
    hide WriteAt;
  }

  lemma AllocateKeepsInv(s: Space, size: nat, from: Extent)
    requires Inv(s) && Enabled(s, Allocate(size, from))
    ensures Inv(Apply(s, Allocate(size, from)))
  {
    hide Tiled, Mirrored, Kept, Recorded, Needed, Carved, Grown, Written, Apart, AsSet;
    var needed, n := Needed(size), SIZE_HEADER + size;
    NeededIsUnits(size);
    GrowKeepsInv(s, needed);
    var t := Grown(s, needed);
    BestIsFree(t, needed, from);
    CarveKeepsTiled(t, from, needed);
    CarveKeepsKept(t, from, needed);
    WriteKeepsRest(Carved(t, from, needed), from.offset, n, needed);
    CarvedIsApart(t, from, needed);
    WriteKeepsRecorded(t, Extent(from.offset, needed), n);
    CarveThenWrite(t, from, needed, n);
  }
}
