/** The space management of the checkpoint output stream: best fit, deferred frees, coalescing. */
module CheckpointStream {
  import opened Ordered
  import opened ExtentSets
  import opened Extents
  import opened ExtentTheorems

  /** The first key from `x` on, as an iterator position. */
  function From(m: OffsetMap, x: int): (i: Option<int>)
    ensures i.None? <==> forall o :: o in m ==> o < x
    ensures i.Some? ==> i.value in m && x <= i.value && forall o :: o in m && x <= o ==> i.value <= o
  {
    var i := LowerBound(m.Keys, x);
    assert forall o :: o in m <==> o in m.Keys;
    i
  }

  ghost predicate Separate(m: OffsetMap)
  {
    Disjoint(AsSet(m)) && Positive(AsSet(m)) && forall o :: o in m ==> 0 <= o
  }

  ghost predicate Passed(i: Option<int>, o: int)
  {
    i.None? || o < i.value
  }

  // ---- merging neighbours

  /** No extent before position `i` touches another. */
  ghost predicate Settled(m: OffsetMap, i: Option<int>)
  {
    forall o :: o in m && Passed(i, o) ==> o + m[o] !in m
  }

  function Joined(m: OffsetMap, i: int, j: int): OffsetMap
    requires i in m && j in m
  {
    m[i := m[i] + m[j]] - {j}
  }

  lemma NextIsEnd(m: OffsetMap, i: int, j: int)
    requires Separate(m) && i in m && j in m && i < j <= i + m[i]
    ensures j == i + m[i]
  {
    hide AsSet, Disjoint;
    KeyIn(m, i);
    if j < i + m[i] {
      NoOverlap(m, Extent(i, m[i]), j);
    }
  }

  lemma JoinedSet(m: OffsetMap, i: int, j: int)
    requires i in m && j in m && i != j
    ensures AsSet(Joined(m, i, j)) == AsSet(m) - {Extent(i, m[i]), Extent(j, m[j])} + {Extent(i, m[i] + m[j])}
  {
    hide AsSet;
    var s, t := AsSet(Joined(m, i, j)), AsSet(m) - {Extent(i, m[i]), Extent(j, m[j])} + {Extent(i, m[i] + m[j])};
    assert forall e :: e in s <==> e in t;
  }

  /** Joining two touching extents keeps the bytes, and the others stay apart. */
  lemma JoinKeeps(m: OffsetMap, i: int, j: int)
    requires Separate(m) && i in m && j in m && j == i + m[i]
    ensures Separate(Joined(m, i, j)) && SameBytes(AsSet(m), AsSet(Joined(m, i, j)))
  {
    hide AsSet, Joined;
    KeyIn(m, i);
    KeyIn(m, j);
    var e, f, g := Extent(i, m[i]), Extent(j, m[j]), Extent(i, m[i] + m[j]);
    assert e in AsSet(m) && f in AsSet(m) && e.size > 0 && f.size > 0;
    JoinedSet(m, i, j);
    JoinBytes(AsSet(m), AsSet(Joined(m, i, j)), e, f, g);
    JoinApart(AsSet(m), AsSet(Joined(m, i, j)), e, f, g);
    forall o | o in Joined(m, i, j) ensures 0 <= o {
      KeyIn(Joined(m, i, j), o);
      assert o == i || o in m;
    }
  }

  lemma JoinBytes(s: set<Extent>, t: set<Extent>, e: Extent, f: Extent, g: Extent)
    requires e in s && f in s && t == s - {e, f} + {g}
    requires g == Extent(e.offset, e.size + f.size) && f.offset == e.End() && e.size > 0 && f.size > 0
    ensures SameBytes(s, t)
  {
    forall x ensures Has(s, x) <==> Has(t, x) {
      if Has(s, x) {
        var c := CoverOf(s, x);
        Covered(t, if c == e || c == f then g else c, x);
      } else if Has(t, x) {
        var c := CoverOf(t, x);
        Covered(s, if c != g then c else if x < f.offset then e else f, x);
      }
    }
  }

  lemma JoinApart(s: set<Extent>, t: set<Extent>, e: Extent, f: Extent, g: Extent)
    requires Disjoint(s) && Positive(s) && e in s && f in s && t == s - {e, f} + {g}
    requires g == Extent(e.offset, e.size + f.size) && f.offset == e.End()
    ensures Disjoint(t) && Positive(t)
  {
    forall a | a in s - {e, f} ensures Apart(a, g) {
      assert Apart(a, e) && Apart(a, f);
    }
  }

  lemma JoinSettled(m: OffsetMap, i: int, j: int)
    requires i in m && j in m && i < j && Settled(m, Some(i))
    ensures Settled(Joined(m, i, j), Some(i))
  {
  }

  lemma SettledNext(m: OffsetMap, i: int, j: Option<int>)
    requires Separate(m) && i in m && Settled(m, Some(i)) && j == From(m, i + 1)
    requires j.Some? ==> j.value > i + m[i]
    ensures Settled(m, j)
  {
    hide AsSet;
    KeyIn(m, i);
  }

  lemma AllSettled(m: OffsetMap)
    requires Separate(m) && Settled(m, None)
    ensures Canonical(AsSet(m))
  {
    hide AsSet, Disjoint;
  }

  function KeysFrom(m: OffsetMap, i: Option<int>): set<int>
  {
    set o | o in m && i.Some? && i.value <= o
  }

  // ---- gaps

  /** The gaps found before byte `x`. */
  ghost predicate GapsBefore(gaps: OffsetMap, m: OffsetMap, x: int)
  {
    && Canonical(AsSet(gaps))
    && (forall g :: g in AsSet(gaps) ==> g.End() < x)
    && forall y :: Has(AsSet(gaps), y) <==> 0 <= y < x && !Has(AsSet(m), y)
  }

  lemma InsertOneMore(a: OffsetMap, g: OffsetMap, k: int, v: int)
    requires k !in g
    ensures InsertAll(InsertAll(a, g), map[k := v]) == InsertAll(a, g[k := v])
  {
  }

  function AddGap(gaps: OffsetMap, x: int, to: int): (more: OffsetMap)
    ensures x < to ==> more == gaps[x := to - x]
    ensures x >= to ==> more == gaps
  {
    if x < to then gaps[x := to - x] else gaps
  }

  /** Adding a gap, if it is not empty, behind all others. */
  lemma GapAdded(gaps: OffsetMap, x: int, to: int)
    requires Canonical(AsSet(gaps)) && x <= to && forall g :: g in AsSet(gaps) ==> g.End() < x
    ensures x !in gaps
    ensures var s := AsSet(AddGap(gaps, x, to));
      && Canonical(s) && (forall g :: g in s ==> g.End() <= to)
      && forall y :: Has(s, y) <==> Has(AsSet(gaps), y) || x <= y < to
  {
    hide AsSet;
    KeyIn(gaps, x);
    var s := AsSet(gaps);
    if x < to {
      var g := Extent(x, to - x);
      AsSetGrows(gaps, g);
      var t := s + {g};
      forall y ensures Has(t, y) <==> Has(s, y) || Covers(g, y) {
        if Has(s, y) {
          Covered(t, CoverOf(s, y), y);
        }
        if Covers(g, y) {
          Covered(t, g, y);
        }
      }
    }
  }

  lemma FreeBytes(m: OffsetMap, x: int, i: int, y: int)
    requires Separate(m) && x <= i && i in m && forall o :: o in m && o < i ==> o + m[o] <= x
    ensures x <= y < i ==> !Has(AsSet(m), y)
    ensures i <= y < i + m[i] ==> Has(AsSet(m), y)
    ensures m[i] > 0
  {
    hide AsSet, Has;
    KeyIn(m, i);
    if i <= y < i + m[i] {
      Covered(AsSet(m), Extent(i, m[i]), y);
    } else if Has(AsSet(m), y) {
      var e := CoverOf(AsSet(m), y);
      assert e.offset in m;
    }
  }

  /** One more gap, from `x` up to the next free extent. */
  lemma GapStep(gaps: OffsetMap, m: OffsetMap, x: int, i: int)
    requires Separate(m) && GapsBefore(gaps, m, x) && 0 <= x <= i && i in m
    requires forall o :: o in m && o < i ==> o + m[o] <= x
    ensures x !in gaps && GapsBefore(AddGap(gaps, x, i), m, i + m[i])
  {
    hide AsSet, Has, Canonical, AddGap, Separate;
    GapAdded(gaps, x, i);
    FreeBytes(m, x, i, x);
    forall y
      ensures x <= y < i ==> !Has(AsSet(m), y)
      ensures i <= y < i + m[i] ==> Has(AsSet(m), y)
    {
      FreeBytes(m, x, i, y);
    }
  }

  /** The gap behind the last free extent. */
  lemma GapLast(gaps: OffsetMap, m: OffsetMap, x: int, length: int)
    requires GapsBefore(gaps, m, x) && 0 <= x <= length
    requires forall o :: o in m ==> o + m[o] <= x
    ensures x !in gaps && IsComplement(AddGap(gaps, x, length), m, length)
  {
    hide AsSet, Has, Canonical, AddGap;
    GapAdded(gaps, x, length);
    forall y | x <= y ensures !Has(AsSet(m), y) {
      forall e | e in AsSet(m) ensures !Covers(e, y) {
        assert e.offset in m;
      }
      NobodyCovers(AsSet(m), y);
    }
  }

  // ---- the code

  class CheckpointOfstream {
    var freeSpace: multiset<Extent>
    var fileLength: int
    var freeByOffset: OffsetMap
    var newFreeSpace: OffsetMap
    var stored: OffsetMap
    ghost var live: set<Extent>
    ghost var committed: set<Extent>

    ghost function Model(): Space
      reads this
    {
      Space(freeSpace, freeByOffset, newFreeSpace, fileLength, stored, live, committed)
    }

    /** A new checkpoint file. */
    constructor ()
      ensures Model() == Fresh && Inv(Model())
    {
      freeSpace, fileLength, freeByOffset, newFreeSpace, stored := multiset{}, 0, map[], map[], map[];
      live, committed := {}, {};
      new;
      FreshInv();
    }

    /** Extends the file by a segment if no free extent is large enough. */
    method EnsureRoom(needed: int)
      modifies this`freeSpace, this`freeByOffset, this`fileLength
      ensures Model() == Grown(old(Model()), needed)
    {
      if !Fits(freeSpace, needed) {
        var extSize := EXTENSION;
        if extSize < needed {
          extSize := needed;
        }
        freeSpace := freeSpace + multiset{Extent(fileLength, extSize)};
        freeByOffset := freeByOffset[fileLength := extSize];
        fileLength := fileLength + extSize;
      }
    }

    /** Takes `needed` bytes from the front of a free extent. */
    method Carve(space: Extent, needed: int) returns (loc: Extent)
      requires space.offset in freeByOffset
      modifies this`freeSpace, this`freeByOffset, this`live
      ensures Model() == Carved(old(Model()), space, needed) && loc == Extent(space.offset, needed)
    {
      ghost var t := Carved(Model(), space, needed);
      var off, left := space.offset, Extent(space.offset + needed, space.size - needed);
      freeSpace := freeSpace - multiset{space};
      freeByOffset := freeByOffset - {off};
      if left.size > 0 {
        freeSpace := freeSpace + multiset{left};
        freeByOffset := freeByOffset[left.offset := left.size];
      }
      assert freeSpace == t.freeSpace && freeByOffset == t.byOffset;
      hide Carved;
      loc := Extent(off, needed);
      live := live + {loc};
    }

    /** Best fit from the free space, which grows if nothing fits; the extent is in both lists. */
    method Allocate(size: nat) returns (loc: Extent, ghost from: Extent)
      requires Inv(Model())
      modifies this`freeSpace, this`freeByOffset, this`fileLength, this`live
      ensures Enabled(old(Model()), Event.Allocate(size, from))
      ensures Model() == Carved(Grown(old(Model()), Needed(size)), from, Needed(size))
      ensures loc == Extent(from.offset, Needed(size))
    {
      hide Inv, BestFit, Fits, Grown, Carved;
      ghost var s := Model();
      var needed := size + SIZE_HEADER;
      needed := (needed / ALIGNMENT + (if needed % ALIGNMENT != 0 then 1 else 0)) * ALIGNMENT;
      NeededIsUnits(size);
      GrowKeepsInv(s, needed);
      EnsureRoom(needed);
      var space := LowerBoundOf(freeSpace, needed);
      from := space;
      Listed(Model(), needed, space);
      loc := Carve(space, needed);
    }

    /** Writes the length of the extent and then the image, as far as the headers in the file go. */
    method WriteImage(offset: int, length: int, imageSize: nat)
      modifies this`stored
      ensures Model() == Written(old(Model()), offset, SIZE_HEADER + imageSize, length)
      ensures offset in stored && stored[offset] == length
      ensures forall o :: o != offset ==>
        (o in stored <==> o in old(stored) && (o + 8 <= offset || offset + 8 + imageSize <= o))
      ensures forall o :: o != offset && o in stored ==> stored[o] == old(stored)[o]
    {
      stored := WriteAt(stored, offset, SIZE_HEADER + imageSize, length);
    }

    /** `write` of one object: an extent for its image, and the image into it. */
    method Write(imageSize: nat) returns (loc: Extent, ghost from: Extent)
      requires Inv(Model())
      modifies this
      ensures Enabled(old(Model()), Event.Allocate(imageSize, from)) && Inv(Model())
      ensures Model() == Apply(old(Model()), Event.Allocate(imageSize, from))
      ensures loc == Extent(from.offset, Needed(imageSize))
    {
      hide Inv, BestFit, Fits, Grown, Carved, WriteAt, Needed;
      ghost var s := Model();
      loc, from := Allocate(imageSize);
      WriteImage(loc.offset, loc.size, imageSize);
      AllocateKeepsInv(s, imageSize, from);
    }

    /** `add_free_space` of one entry: free from the next commit on. */
    method AddFreeSpace(loc: Extent)
      requires Inv(Model()) && loc in live
      modifies this
      ensures Model() == Apply(old(Model()), Free(loc)) && Inv(Model())
    {
      hide Inv;
      ghost var s := Model();
      if loc.offset !in newFreeSpace {
        newFreeSpace := newFreeSpace[loc.offset := loc.size];
      }
      live := live - {loc};
      FreeKeepsInv(s, loc);
    }

    /** Makes the bytes from `x` up to `to` pending, if there are any. */
    method InsertGap(x: int, to: int, ghost before: OffsetMap, ghost gaps: OffsetMap)
      requires newFreeSpace == InsertAll(before, gaps) && x !in gaps
      modifies this`newFreeSpace
      ensures newFreeSpace == InsertAll(before, AddGap(gaps, x, to))
    {
      if x < to {
        InsertOneMore(before, gaps, x, to - x);
        newFreeSpace := InsertAll(newFreeSpace, map[x := to - x]);
      }
    }

    /** `clear`: all space that is not free becomes pending, gap by gap. */
    method Clear() returns (ghost gaps: OffsetMap)
      requires Inv(Model())
      modifies this
      ensures Enabled(old(Model()), Event.Clear(gaps)) && Model() == Apply(old(Model()), Event.Clear(gaps))
    {
      hide AsSet, GapsBefore, Has, Separate, Inv, AddGap, InsertAll, KeysFrom, IsComplement;
      ghost var s := Model();
      FreeIsSeparate(s);
      var m := freeByOffset;
      var lastStart := 0;
      gaps := map[];
      NoGapsYet(m);
      InsertNothing(newFreeSpace);
      var i := From(m, 0);
      while i.Some?
        invariant Model() == s.(newFree := InsertAll(s.newFree, gaps))
        invariant 0 <= lastStart <= fileLength && GapsBefore(gaps, m, lastStart)
        invariant i.Some? ==> i.value in m && lastStart <= i.value
        invariant forall o :: o in m && Passed(i, o) ==> o + m[o] <= lastStart
        decreases KeysFrom(m, i)
      {
        var o := i.value;
        GapStep(gaps, m, lastStart, o);
        InsertGap(lastStart, o, s.newFree, gaps);
        gaps := AddGap(gaps, lastStart, o);
        FreeInside(s, o);
        lastStart := o + m[o];
        i := From(m, o + 1);
        NextBehind(m, o, i);
      }
      GapLast(gaps, m, lastStart, fileLength);
      InsertGap(lastStart, fileLength, s.newFree, gaps);
      gaps := AddGap(gaps, lastStart, fileLength);
      live := {};
    }

    /** The coalescing loop: neighbours are joined in place, front to back. */
    method MergeNeighbours()
      requires Separate(freeByOffset)
      modifies this`freeByOffset
      ensures IsMerged(freeByOffset, old(freeByOffset))
    {
      hide AsSet, Separate, SameBytes, Settled, Joined, KeysFrom;
      ghost var m0 := freeByOffset;
      BytesAreSame(m0);
      NothingSettled(m0);
      var i := From(freeByOffset, 0);
      while i.Some?
        invariant Separate(freeByOffset) && SameBytes(AsSet(m0), AsSet(freeByOffset))
        invariant i.Some? ==> i.value in freeByOffset
        invariant Settled(freeByOffset, i)
        decreases KeysFrom(freeByOffset, i)
      {
        var o := i.value;
        ghost var before := freeByOffset;
        var j := From(freeByOffset, o + 1);
        while j.Some? && j.value <= o + freeByOffset[o]
          invariant Separate(freeByOffset) && SameBytes(AsSet(m0), AsSet(freeByOffset))
          invariant o in freeByOffset && Settled(freeByOffset, Some(o)) && j == From(freeByOffset, o + 1)
          invariant freeByOffset.Keys <= before.Keys
          decreases freeByOffset.Keys
        {
          NextIsEnd(freeByOffset, o, j.value);
          JoinKeeps(freeByOffset, o, j.value);
          JoinSettled(freeByOffset, o, j.value);
          SameBytesTwice(m0, freeByOffset, Joined(freeByOffset, o, j.value));
          JoinedKeys(freeByOffset, o, j.value);
          freeByOffset := Joined(freeByOffset, o, j.value);
          j := From(freeByOffset, o + 1);
        }
        SettledNext(freeByOffset, o, j);
        FewerKeys(before, freeByOffset, o, j);
        i := j;
      }
      AllSettled(freeByOffset);
    }

    /** `add_free_space` at a commit: pending space joins the free space, and both lists are rebuilt. */
    method ReconcileFreeSpace()
      requires Inv(Model())
      modifies this`freeSpace, this`freeByOffset, this`newFreeSpace
      ensures IsMerged(freeByOffset, InsertAll(old(freeByOffset), old(newFreeSpace)))
      ensures freeSpace == multiset(AsSet(freeByOffset)) && newFreeSpace == map[]
    {
      hide AsSet, Separate, IsMerged, Inv, KeysFrom;
      JoinedIsSeparate(Model());
      freeByOffset := InsertAll(freeByOffset, newFreeSpace);
      newFreeSpace := map[];
      MergeNeighbours();
      freeSpace := multiset{};
      var m := freeByOffset;
      ghost var done: set<Extent> := {};
      var i := FirstKey(m);
      while i.Some?
        invariant i.Some? ==> i.value in m
        invariant freeByOffset == m && newFreeSpace == map[] && freeSpace == multiset(done)
        invariant forall e :: e in done <==> e in AsSet(m) && Passed(i, e.offset)
        decreases KeysFrom(m, i)
      {
        var e := Extent(i.value, m[i.value]);
        MultisetMore(done, e);
        done := done + {e};
        freeSpace := freeSpace + multiset{e};
        var next := From(m, i.value + 1);
        FewerKeys(m, m, i.value, next);
        i := next;
      }
      assert done == AsSet(m);
    }

    method Commit() returns (ghost merged: OffsetMap)
      requires Inv(Model())
      modifies this
      ensures Enabled(old(Model()), Event.Commit(merged)) && Inv(Model())
      ensures Model() == Apply(old(Model()), Event.Commit(merged))
    {
      hide Inv, IsMerged;
      ghost var s := Model();
      ReconcileFreeSpace();
      merged := freeByOffset;
      committed := live;
      CommitKeepsInv(s, merged);
    }
  }

  /** `begin`. */
  function FirstKey(m: OffsetMap): (i: Option<int>)
    ensures i.None? <==> forall o :: o !in m
    ensures i.Some? ==> i.value in m && forall o :: o in m ==> i.value <= o
  {
    assert forall o :: o in m <==> o in m.Keys;
    if m.Keys == {} then None
    else
      LeastExists(m.Keys);
      var least :| least in m.Keys && forall z :: z in m.Keys ==> least <= z;
      Some(least)
  }

  lemma InsertNothing(a: OffsetMap)
    ensures InsertAll(a, map[]) == a
  {
  }

  lemma FreeIsSeparate(s: Space)
    requires Inv(s)
    ensures Separate(s.byOffset) && s.length >= 0
    ensures forall o :: o in s.byOffset ==> 0 <= o
  {
    hide AsSet, Has, Disjoint;
    ThreeParts(s);
    forall o | o in s.byOffset ensures 0 <= o {
      KeyIn(s.byOffset, o);
    }
  }

  lemma FreeInside(s: Space, o: int)
    requires Inv(s) && o in s.byOffset
    ensures 0 <= o < o + s.byOffset[o] <= s.length
  {
    hide AsSet, Has, Disjoint;
    KeyIn(s.byOffset, o);
    ThreeParts(s);
  }

  lemma NoGapsYet(m: OffsetMap)
    ensures GapsBefore(map[], m, 0)
  {
  }

  /** The next free extent begins behind this one. */
  lemma NextBehind(m: OffsetMap, o: int, i: Option<int>)
    requires Separate(m) && o in m && i == From(m, o + 1)
    ensures i.Some? ==> i.value in m && o + m[o] <= i.value
    ensures forall k :: k in m && Passed(i, k) ==> k <= o
    ensures KeysFrom(m, i) < KeysFrom(m, Some(o))
    ensures forall k :: k in m && k < o ==> k + m[k] <= o
  {
    hide AsSet;
    KeyIn(m, o);
    if i.Some? {
      KeyIn(m, i.value);
    }
    forall k | k in m && k < o ensures k + m[k] <= o {
      KeyIn(m, k);
    }
    assert o in KeysFrom(m, Some(o)) && o !in KeysFrom(m, i);
  }

  lemma BytesAreSame(m: OffsetMap)
    ensures SameBytes(AsSet(m), AsSet(m))
  {
  }

  lemma SameBytesTwice(a: OffsetMap, b: OffsetMap, c: OffsetMap)
    requires SameBytes(AsSet(a), AsSet(b)) && SameBytes(AsSet(b), AsSet(c))
    ensures SameBytes(AsSet(a), AsSet(c))
  {
  }

  lemma NothingSettled(m: OffsetMap)
    requires Separate(m)
    ensures Settled(m, From(m, 0))
  {
  }

  lemma JoinedKeys(m: OffsetMap, i: int, j: int)
    requires i in m && j in m && i != j
    ensures i in Joined(m, i, j) && Joined(m, i, j).Keys < m.Keys
  {
    assert j in m.Keys && j !in Joined(m, i, j).Keys;
  }

  lemma FewerKeys(before: OffsetMap, after: OffsetMap, o: int, j: Option<int>)
    requires o in before && after.Keys <= before.Keys && j == From(after, o + 1)
    ensures KeysFrom(after, j) < KeysFrom(before, Some(o))
    ensures forall k :: k in after && Passed(j, k) ==> k <= o
  {
    assert o in KeysFrom(before, Some(o)) && o !in KeysFrom(after, j);
    forall k | k in KeysFrom(after, j) ensures k in KeysFrom(before, Some(o)) {
      assert k in after.Keys;
    }
  }

  lemma JoinedIsSeparate(s: Space)
    requires Inv(s)
    ensures Separate(InsertAll(s.byOffset, s.newFree))
  {
    hide AsSet, Has, Mirrored, Kept;
    JoinedLists(s);
    ThreeParts(s);
    var m := InsertAll(s.byOffset, s.newFree);
    assert forall e :: e in AsSet(m) ==> e in All(s);
    forall o | o in m ensures 0 <= o {
      KeyIn(m, o);
    }
  }

  /** The tightest extents that are large enough: what `lower_bound` finds, whichever comes first. */
  method LowerBoundOf(free: multiset<Extent>, needed: int) returns (e: Extent)
    requires Fits(free, needed)
    ensures BestFit(free, needed, e)
  {
    BestExists(free, needed);
    e :| e in free && needed <= e.size && forall f :: f in free && needed <= f.size ==> e.size <= f.size;
  }

  lemma BestExists(free: multiset<Extent>, needed: int)
    requires Fits(free, needed)
    ensures exists e :: e in free && needed <= e.size && forall f :: f in free && needed <= f.size ==> e.size <= f.size
  {
    var sizes := set e | e in free && needed <= e.size :: e.size;
    var some :| some in free && needed <= some.size;
    assert some.size in sizes;
    LeastExists(sizes);
    var least :| least in sizes && forall z :: z in sizes ==> least <= z;
    var e :| e in free && needed <= e.size && e.size == least;
    assert forall f :: f in free && needed <= f.size ==> f.size in sizes;
  }

  lemma Listed(s: Space, needed: int, e: Extent)
    requires Inv(s) && BestFit(s.freeSpace, needed, e)
    ensures e.offset in s.byOffset && s.byOffset[e.offset] == e.size
  {
    hide AsSet, Tiled, Kept;
    BestIsFree(s, needed, e);
  }
}
