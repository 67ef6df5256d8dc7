/** Reopening a checkpoint file and reading its entries back in the order of the file. */
module CheckpointScan {
  import opened ExtentSets
  import opened Extents
  import opened ExtentTheorems
  import opened CheckpointStream

  lemma MirrorUnique(m: OffsetMap, n: OffsetMap)
    requires multiset(AsSet(m)) == multiset(AsSet(n))
    ensures m == n
  {
    hide AsSet;
    assert forall e :: e in AsSet(m) <==> e in multiset(AsSet(m));
    assert forall e :: e in AsSet(n) <==> e in multiset(AsSet(n));
    forall o ensures o in m <==> o in n
      ensures o in m && o in n ==> m[o] == n[o]
    {
      KeyIn(m, o);
      KeyIn(n, o);
    }
  }

  /**
   `prepare_free_by_offset`: the free list by offset is the one that the saved free list mirrored,
   and no offset comes up twice.
   */
  method PrepareFreeByOffset(freeSpace: multiset<Extent>, ghost saved: OffsetMap) returns (freeByOffset: OffsetMap)
    requires freeSpace == multiset(AsSet(saved))
    ensures freeByOffset == saved
  {
    hide AsSet;
    freeByOffset := map[];
    ghost var done: set<Extent> := {};
    var rest := freeSpace;
    assert AsSet(map[]) == {};
    while rest != multiset{}
      invariant done <= AsSet(saved) && rest == multiset(AsSet(saved) - done)
      invariant AsSet(freeByOffset) == done
      decreases |rest|
    {
      var e :| e in rest;
      KeyIn(freeByOffset, e.offset);
      AsSetGrows(freeByOffset, e);
      MultisetLess(AsSet(saved) - done, e);
      done := done + {e};
      assert AsSet(saved) - done == AsSet(saved) - (done - {e}) - {e};
      freeByOffset := freeByOffset[e.offset := e.size];
      rest := rest - multiset{e};
    }
    NothingLeft(AsSet(saved) - done);
    assert done == AsSet(saved);
    MirrorUnique(freeByOffset, saved);
  }

  lemma NothingLeft(s: set<Extent>)
    requires multiset(s) == multiset{}
    ensures s == {}
  {
    forall e ensures e !in s {
      assert e in s ==> e in multiset(s);
    }
  }

  // ---- the iterator

  /** Free and live extents tile the file; at each live extent the file holds its size. */
  ghost predicate Readable(free: OffsetMap, live: set<Extent>, stored: map<int, int>, length: int)
  {
    && AsSet(free) !! live && Tiles(AsSet(free) + live, length)
    && forall e :: e in live ==> e.offset in stored && stored[e.offset] == e.size
  }

  /** An extent starts here, or the file ends. */
  ghost predicate Boundary(free: OffsetMap, live: set<Extent>, length: int, x: int)
  {
    x == length || exists e :: e in AsSet(free) + live && e.offset == x
  }

  /** The extents of a tiling follow each other. */
  lemma EndIsBoundary(free: OffsetMap, live: set<Extent>, length: int, e: Extent)
    requires Tiles(AsSet(free) + live, length) && e in AsSet(free) + live
    ensures e.offset < e.End() <= length && Boundary(free, live, length, e.End())
    ensures forall f :: f in AsSet(free) + live ==> f == e || f.offset < e.offset || e.End() <= f.offset
  {
    hide AsSet;
    var all := AsSet(free) + live;
    assert Aligned(e, length);
    forall f | f in all ensures f == e || f.offset < e.offset || e.End() <= f.offset {
      assert Aligned(f, length);
    }
    if e.End() < length {
      assert Has(all, e.End());
      var f := CoverOf(all, e.End());
      assert Aligned(f, length) && f != e && Apart(e, f);
    }
  }

  lemma LiveHere(free: OffsetMap, live: set<Extent>, length: int, x: int) returns (e: Extent)
    requires Boundary(free, live, length, x) && x != length && x !in free
    ensures e in live && e.offset == x
  {
    hide AsSet;
    e :| e in AsSet(free) + live && e.offset == x;
  }

  class CheckpointIterator {
    const free: OffsetMap
    const stored: map<int, int>
    const length: int
    ghost const live: set<Extent>
    var offset: int
    var currentLoc: Extent

    ghost predicate Valid()
      reads this
    {
      Readable(free, live, stored, length) && 0 <= offset <= length && Boundary(free, live, length, offset)
    }

    constructor (free: OffsetMap, stored: map<int, int>, length: int, ghost live: set<Extent>, offset: int)
      requires Readable(free, live, stored, length) && 0 <= offset <= length && Boundary(free, live, length, offset)
      ensures Valid() && this.offset == offset
      ensures this.free == free && this.stored == stored && this.length == length && this.live == live
    {
      this.free, this.stored, this.length, this.live, this.offset := free, stored, length, live, offset;
      currentLoc := Extent(0, 0);
    }

    /** Skips free extents and reads the entry behind them; at the end of the file it stays there. */
    method Forward() returns (ghost found: bool)
      requires Valid()
      modifies this
      ensures Valid() && old(offset) <= offset
      ensures found ==>
        && currentLoc in live && old(offset) <= currentLoc.offset && offset == currentLoc.End()
        && forall l :: l in live ==> l.offset < old(offset) || currentLoc.offset <= l.offset
      ensures !found ==>
        && offset == length && currentLoc == old(currentLoc)
        && forall l :: l in live ==> l.offset < old(offset)
    {
      hide AsSet, Has, Boundary;
      ghost var start := offset;
      var i := From(free, offset);
      while i.Some? && i.value == offset
        invariant Valid() && start <= offset && currentLoc == old(currentLoc)
        invariant i == From(free, offset)
        invariant forall l :: l in live ==> l.offset < start || offset <= l.offset
        decreases length - offset
      {
        var e := Extent(offset, free[offset]);
        KeyIn(free, offset);
        EndIsBoundary(free, live, length, e);
        offset := offset + free[offset];
        i := From(free, offset);
      }
      if offset == length {
        NoneAtEnd(free, live, length);
        return false;
      }
      ghost var l := LiveHere(free, live, length, offset);
      EndIsBoundary(free, live, length, l);
      var size := stored[offset];
      currentLoc := Extent(offset, size);
      offset := offset + size;
      found := true;
    }
  }

  lemma NoneAtEnd(free: OffsetMap, live: set<Extent>, length: int)
    requires Tiles(AsSet(free) + live, length)
    ensures forall l :: l in live ==> l.offset < length
  {
    hide AsSet, Has;
    assert forall l :: l in live ==> l in AsSet(free) + live && Aligned(l, length);
  }

  /** What the load loop is given when it is done: which entries, and in which order. */
  ghost predicate Loads(visited: seq<Extent>, live: set<Extent>, length: int)
  {
    InOrder(visited) && forall e :: e in visited <==> e in live && e.End() != length
  }

  ghost predicate InOrder(visited: seq<Extent>)
  {
    forall i, j :: 0 <= i < j < |visited| ==> visited[i].End() <= visited[j].offset
  }

  /**
   The loop of `load_checkpoint`, from `begin` to `end`: it visits every live extent with its stored
   size, in order and once each, except one that ends where the file ends.
   */
  method LoadCheckpoint(free: OffsetMap, stored: map<int, int>, length: int, ghost live: set<Extent>)
    returns (visited: seq<Extent>)
    requires Readable(free, live, stored, length)
    ensures Loads(visited, live, length)
  {
    hide AsSet, Has, Boundary, Readable;
    StartIsBoundary(free, live, stored, length);
    var i := new CheckpointIterator(free, stored, length, live, 0);
    ghost var found := i.Forward();
    visited := [];
    while i.offset != length
      invariant i.Valid() && i.free == free && i.stored == stored && i.length == length && i.live == live
      invariant i.offset != length ==> found
      invariant found ==> i.currentLoc in live && i.offset == i.currentLoc.End()
      invariant found ==> forall l :: l in live ==> (l in visited <==> l.offset < i.currentLoc.offset)
      invariant !found ==> forall l :: l in live ==> l in visited
      invariant forall e :: e in visited ==> e in live && e.End() != length
      invariant found ==> forall e :: e in visited ==> e.End() <= i.currentLoc.offset
      invariant InOrder(visited)
      decreases length - i.offset, found
    {
      ghost var e := i.currentLoc;
      LiveEnd(free, live, stored, length, e);
      ghost var before := visited;
      visited := visited + [i.currentLoc];
      assert forall l :: l in visited <==> l in before || l == e;
      found := i.Forward();
      if found {
        LiveEnd(free, live, stored, length, i.currentLoc);
      }
    }
    if found {
      LiveEnd(free, live, stored, length, i.currentLoc);
    }
  }

  lemma StartIsBoundary(free: OffsetMap, live: set<Extent>, stored: map<int, int>, length: int)
    requires Readable(free, live, stored, length)
    ensures 0 <= length && Boundary(free, live, length, 0)
    ensures forall l :: l in live ==> 0 <= l.offset
  {
    hide AsSet;
    var all := AsSet(free) + live;
    assert forall l :: l in live ==> l in all && Aligned(l, length);
    if 0 < length {
      assert Has(all, 0);
      var e := CoverOf(all, 0);
      assert Aligned(e, length);
    }
  }

  lemma LiveEnd(free: OffsetMap, live: set<Extent>, stored: map<int, int>, length: int, e: Extent)
    requires Readable(free, live, stored, length) && e in live
    ensures e.offset < e.End() <= length
    ensures forall f :: f in live ==> f.offset < f.End() <= length
    ensures forall f :: f in live ==> f == e || f.End() <= e.offset || e.End() <= f.offset
  {
    hide AsSet, Has;
    var all := AsSet(free) + live;
    forall f | f in live
      ensures f.offset < f.End() <= length
      ensures f == e || f.End() <= e.offset || e.End() <= f.offset
    {
      assert f in all && e in all && Aligned(f, length);
    }
    assert Aligned(e, length);
  }

  // ---- the scan on what the allocator has written

  ghost predicate NoCommit(es: seq<Event>)
  {
    forall i :: 0 <= i < |es| ==> !es[i].Commit?
  }

  lemma {:induction false} CommittedStays(s: Space, es: seq<Event>)
    requires NoCommit(es)
    ensures Exec(s, es).committed == s.committed
    decreases |es|
  {
    hide Needed, Grown, WriteAt, InsertAll;
    if es != [] {
      assert !es[0].Commit?;
      if es[0].Allocate? {
        GrownKeepsOthers(s, Needed(es[0].size));
      }
      CommittedStays(Apply(s, es[0]), es[1..]);
    }
  }

  /**
   What a commit saved can be read back for as long as it is the last one: after any run, a commit, and
   any events but another commit, the saved free list, the saved length and the sizes found in the file
   fit together, although entries have been written, freed and cleared since.
   */
  lemma CommittedIsReadable(before: seq<Event>, merged: OffsetMap, after: seq<Event>)
    requires ValidRun(Fresh, before) && CleanRun(Fresh, before) && Enabled(Exec(Fresh, before), Commit(merged))
    requires var t := Apply(Exec(Fresh, before), Commit(merged));
      NoCommit(after) && ValidRun(t, after) && CleanRun(t, after)
    ensures var t := Apply(Exec(Fresh, before), Commit(merged));
      Readable(t.byOffset, t.live, Exec(t, after).stored, t.length)
  {
    hide Inv, Enabled, ValidRun, CleanRun, Exec, WriteAt;
    FreshInv();
    RunKeepsInv(Fresh, before);
    var s := Exec(Fresh, before);
    CommitKeepsInv(s, merged);
    var t := Apply(s, Commit(merged));
    RunKeepsInv(t, after);
    CommittedStays(t, after);
    SizesStored(Exec(t, after));
    TiledIsReadable(t, Exec(t, after).stored);
  }

  lemma SizesStored(s: Space)
    requires Inv(s)
    ensures forall e :: e in s.committed ==> e.offset in s.stored && s.stored[e.offset] == e.size
  {
    hide Tiled, Mirrored, Kept;
    assert forall e :: e in s.committed ==> e in s.live + s.committed;
  }

  lemma TiledIsReadable(t: Space, stored: map<int, int>)
    requires Inv(t) && t.newFree == map[]
    requires forall e :: e in t.live ==> e.offset in stored && stored[e.offset] == e.size
    ensures Readable(t.byOffset, t.live, stored, t.length)
  {
    hide AsSet, Tiles, Mirrored, Kept;
    assert AsSet(map[]) == {};
    assert All(t) == AsSet(t.byOffset) + t.live;
  }

  /** The scan misses an entry exactly when the file is not empty and does not end in free space. */
  lemma LastEntryMissed(free: OffsetMap, live: set<Extent>, stored: map<int, int>, length: int)
    requires Readable(free, live, stored, length)
    ensures (exists l :: l in live && l.End() == length)
            <==> length > 0 && forall f :: f in AsSet(free) ==> f.End() != length
  {
    hide AsSet;
    var all := AsSet(free) + live;
    if length > 0 {
      assert Has(all, length - 1);
      var last := CoverOf(all, length - 1);
      assert Aligned(last, length);
      forall f | f in all && f.End() == length ensures f == last {
        assert Aligned(f, length);
      }
    } else {
      assert forall f :: f in live ==> f in all && Aligned(f, length);
    }
  }

  /**
   One entry that fills the first segment of a new file is committed and never read back: the load loop
   may be called on the file, and whatever it is given is empty.
   */
  lemma FullSegmentIsLost(visited: seq<Extent>)
    ensures var entry := Extent(0, EXTENSION); var es := [Allocate(EXTENSION - SIZE_HEADER, entry), Commit(map[])];
      && ValidRun(Fresh, es) && CleanRun(Fresh, es)
      && var s := Exec(Fresh, es);
         && s.live == {entry} && s.length == entry.End() && Readable(s.byOffset, s.live, s.stored, s.length)
         && (Loads(visited, s.live, s.length) <==> visited == [])
  {
    var entry := Extent(0, EXTENSION);
    var first, second := Allocate(EXTENSION - SIZE_HEADER, entry), Commit(map[]);
    var es := [first, second];
    var t := SegmentFilled();
    var u := Apply(t, second);
    assert IsMerged(map[], map[]);
    TwoSteps(es, t, u);
    EntryReadable(es, u);
    NothingLoaded(visited, entry);
  }

  lemma TwoSteps(es: seq<Event>, t: Space, u: Space)
    requires |es| == 2 && !es[0].Clear? && !es[1].Clear?
    requires Enabled(Fresh, es[0]) && Apply(Fresh, es[0]) == t && Enabled(t, es[1]) && Apply(t, es[1]) == u
    ensures ValidRun(Fresh, es) && CleanRun(Fresh, es) && Exec(Fresh, es) == u
  {
    hide Enabled, Apply;
    var none: seq<Event> := [];
    assert es[1..][0] == es[1] && es[1..][1..] == none;
    assert ValidRun(t, es[1..]) && CleanRun(t, es[1..]) && Exec(t, es[1..]) == Exec(u, none) == u;
  }

  function SegmentFilled(): (t: Space)
    ensures var first := Allocate(EXTENSION - SIZE_HEADER, Extent(0, EXTENSION));
      Enabled(Fresh, first) && t == Apply(Fresh, first)
    ensures t.byOffset == map[] && t.newFree == map[] && t.live == {Extent(0, EXTENSION)} && t.length == EXTENSION
  {
    var entry := Extent(0, EXTENSION);
    assert Needed(EXTENSION - SIZE_HEADER) == EXTENSION;
    var g := Grown(Fresh, EXTENSION);
    assert g.freeSpace == multiset{entry} && g.byOffset == map[0 := EXTENSION];
    Apply(Fresh, Allocate(EXTENSION - SIZE_HEADER, entry))
  }

  lemma EntryReadable(es: seq<Event>, u: Space)
    requires ValidRun(Fresh, es) && CleanRun(Fresh, es) && Exec(Fresh, es) == u && u.newFree == map[]
    ensures Readable(u.byOffset, u.live, u.stored, u.length)
  {
    hide Inv, ValidRun, CleanRun, Exec;
    FreshInv();
    RunKeepsInv(Fresh, es);
    LiveStored(u);
    TiledIsReadable(u, u.stored);
  }

  lemma LiveStored(s: Space)
    requires Inv(s)
    ensures forall e :: e in s.live ==> e.offset in s.stored && s.stored[e.offset] == e.size
  {
    hide Tiled, Mirrored, Kept;
    assert forall e :: e in s.live ==> e in s.live + s.committed;
  }

  lemma NothingLoaded(visited: seq<Extent>, entry: Extent)
    ensures Loads(visited, {entry}, entry.End()) <==> visited == []
  {
    if visited != [] {
      assert visited[0] in visited;
    }
  }
}
