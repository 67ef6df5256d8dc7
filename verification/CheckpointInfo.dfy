/**
 Where the pages of a region live in its checkpoint file.

 A region of `n` pages is checkpointed into a file of `2 * n` pages, so that every page can be
 written to a fresh place while the previous checkpoint stays readable.
 */
module PageMap {
  import opened Ordered

  /** `(pageno_t)-1`: the page number that stands for "no page". */
  const NULL_PAGE: nat := 0xFFFF_FFFF_FFFF_FFFF

  datatype Info = Info(locs: seq<nat>, content: seq<nat>, free: set<int>, pending: set<int>)

  function Nowhere(size: nat): (s: seq<nat>)
    ensures |s| == size && forall i :: 0 <= i < size ==> s[i] == NULL_PAGE
  {
    seq(size, _ => NULL_PAGE)
  }

  /** `locs` and `content` are mutual inverses; used, free and pending pages partition the file. */
  ghost predicate Consistent(i: Info, n: nat)
  {
    && 2 * n < NULL_PAGE
    && |i.locs| == 2 * n && |i.content| == 2 * n
    && (forall r :: n <= r < 2 * n ==> i.locs[r] == NULL_PAGE)
    && (forall r :: 0 <= r < n && i.locs[r] != NULL_PAGE ==> i.locs[r] < 2 * n && i.content[i.locs[r]] == r)
    && (forall c :: 0 <= c < 2 * n && i.content[c] != NULL_PAGE ==> i.content[c] < n && i.locs[i.content[c]] == c)
    && (forall c :: c in i.free ==> 0 <= c < 2 * n && i.content[c] == NULL_PAGE)
    && (forall c :: c in i.pending ==> 0 <= c < 2 * n && i.content[c] == NULL_PAGE)
    && i.free !! i.pending
    && (forall c :: 0 <= c < 2 * n && i.content[c] == NULL_PAGE ==> c in i.free || c in i.pending)
  }

  function Distance(a: int, b: int): nat { if a < b then b - a else a - b }

  /** `c` is the free page nearest to `r`, the lower one when two are equally near. */
  ghost predicate IsClosest(free: set<int>, r: int, c: int)
  {
    && c in free
    && forall f :: f in free ==> Distance(c, r) <= Distance(f, r) && (Distance(c, r) == Distance(f, r) ==> c <= f)
  }

  lemma ClosestExists(free: set<int>, r: int)
    requires free != {}
    ensures exists c :: IsClosest(free, r, c)
  {
    var x := AnElement(free);
    var up, down := LowerBound(free, r), Before(free, r);
    if up.Some? && (down.None? || up.value - r < r - down.value) {
      assert IsClosest(free, r, up.value);
    } else {
      assert down.Some?;
      assert IsClosest(free, r, down.value);
    }
  }

  lemma ClosestIsFree(free: set<int>, r: int, c: int)
    requires IsClosest(free, r, c)
    ensures c in free
  {
  }

  ghost function Closest(free: set<int>, r: int): (c: int)
    requires free != {}
    ensures IsClosest(free, r, c)
  {
    ClosestExists(free, r);
    var c :| IsClosest(free, r, c);
    c
  }

  /** The page map after region page `r` has been given file page `c`. */
  function Allocated(i: Info, r: nat, c: nat): Info
    requires r < |i.locs| == |i.content| && c < |i.content|
    requires i.locs[r] != NULL_PAGE ==> i.locs[r] < |i.content|
  {
    var current := i.locs[r];
    var released := if current != NULL_PAGE then i.content[current := NULL_PAGE] else i.content;
    Info(i.locs[r := c], released[c := r], i.free - {c},
         if current != NULL_PAGE then i.pending + {current} else i.pending)
  }

  function Completed(i: Info): Info
  {
    i.(free := i.free + i.pending, pending := {})
  }

  /** The file pages that hold some region page. */
  ghost function Used(locs: seq<nat>, n: nat): set<int>
    requires n <= |locs|
  {
    set r | 0 <= r < n && locs[r] != NULL_PAGE :: locs[r]
  }

  lemma NothingPlaced(n: nat)
    requires 2 * n < NULL_PAGE
    ensures Consistent(Info(Nowhere(2 * n), Nowhere(2 * n), Upto(2 * n), {}), n)
  {
  }

  lemma PlaceCount(i: Info, n: nat)
    requires Consistent(i, n)
    ensures |i.locs| == |i.content| == 2 * n
  {
  }

  lemma PlaceBounds(i: Info, n: nat, r: nat)
    requires Consistent(i, n) && r < n
    ensures |i.locs| == |i.content| == 2 * n && forall c :: c in i.free ==> 0 <= c < 2 * n
    ensures i.locs[r] != NULL_PAGE ==> i.locs[r] < 2 * n
  {
  }

  lemma PlacesNotFree(i: Info, n: nat)
    requires Consistent(i, n)
    ensures |i.locs| == 2 * n
    ensures forall r :: 0 <= r < n && i.locs[r] != NULL_PAGE ==>
      i.locs[r] < 2 * n && i.locs[r] !in i.free && i.locs[r] !in i.pending
  {
  }

  lemma AllocatedConsistent(i: Info, n: nat, r: nat, c: nat)
    requires Consistent(i, n) && r < n && c in i.free
    ensures Consistent(Allocated(i, r, c), n)
  {
  }

  lemma CompletedConsistent(i: Info, n: nat)
    requires Consistent(i, n)
    ensures Consistent(Completed(i), n)
  {
  }

  /** A partial map from a set of region pages reaches at most as many file pages. */
  lemma {:induction false} ImageCardinality(locs: seq<nat>, pages: set<int>)
    requires forall r :: r in pages ==> 0 <= r < |locs|
    ensures |set r | r in pages && locs[r] != NULL_PAGE :: locs[r]| <= |pages|
    decreases |pages|
  {
    var image := set r | r in pages && locs[r] != NULL_PAGE :: locs[r];
    if pages == {} {
      assert image == {};
    } else {
      var r := AnElement(pages);
      var rest := pages - {r};
      var smaller := set r | r in rest && locs[r] != NULL_PAGE :: locs[r];
      ImageCardinality(locs, rest);
      assert image <= smaller + {locs[r]};
      SubsetCardinality(image, smaller + {locs[r]});
    }
  }

  lemma Cover(i: Info, n: nat)
    requires Consistent(i, n)
    ensures Upto(2 * n) <= Used(i.locs, n) + i.pending + i.free
  {
    forall c | c in Upto(2 * n) ensures c in Used(i.locs, n) + i.pending + i.free {
      if i.content[c] != NULL_PAGE {
        assert i.locs[i.content[c]] == c;
      }
    }
  }

  lemma UsedCardinality(locs: seq<nat>, n: nat)
    requires n <= |locs|
    ensures |Used(locs, n)| <= n
  {
    ImageCardinality(locs, Upto(n));
    assert Used(locs, n) == set p | p in Upto(n) && locs[p] != NULL_PAGE :: locs[p];
  }

  /** Every file page in `pending` is the old place of some page of `copied`. */
  ghost predicate ReleasedBy(pending: set<int>, last: seq<nat>, copied: set<int>)
  {
    && (forall p :: p in copied ==> 0 <= p < |last|)
    && forall c :: c in pending ==> c < NULL_PAGE && exists p :: p in copied && last[p] == c
  }

  lemma PendingCardinality(pending: set<int>, last: seq<nat>, copied: set<int>)
    requires ReleasedBy(pending, last, copied)
    ensures |pending| <= |copied|
  {
    var image: set<int> := set p | p in copied && last[p] != NULL_PAGE :: last[p];
    ImageCardinality(last, copied);
    forall c | c in pending ensures c in image {
      var p :| p in copied && last[p] == c;
    }
    SubsetCardinality(pending, image);
  }

  /**
   No exhaustion: if every pending page is the old place of a page copied this cycle, and `r` has
   not been copied yet, some page of the file is still free.
   */
  lemma FreePageLeft(i: Info, n: nat, last: seq<nat>, copied: set<int>, r: nat)
    requires Consistent(i, n) && r < n && r !in copied && copied <= Upto(n)
    requires ReleasedBy(i.pending, last, copied)
    ensures i.free != {}
  {
    UsedCardinality(i.locs, n);
    PendingCardinality(i.pending, last, copied);
    assert r in Upto(n);
    SubsetCardinality(copied, Upto(n));
    Cover(i, n);
    SubsetCardinality(Upto(2 * n), Used(i.locs, n) + i.pending + i.free);
    assert |Used(i.locs, n) + i.pending + i.free| <= |Used(i.locs, n)| + |i.pending| + |i.free|;
  }

  function Grown(i: Info, size: nat): Info
    requires |i.locs| == |i.content| <= size
  {
    var more := Nowhere(size - |i.locs|);
    Info(i.locs + more, i.content + more, i.free + (Upto(size) - Upto(|i.locs|)), i.pending)
  }

  lemma GrownConsistent(i: Info, n: nat, m: nat)
    requires Consistent(i, n) && n <= m && 2 * m < NULL_PAGE
    ensures Consistent(Grown(i, 2 * m), m)
  {
    var g := Grown(i, 2 * m);
    assert forall r :: 2 * n <= r < 2 * m ==> g.locs[r] == NULL_PAGE && g.content[r] == NULL_PAGE;
    assert forall r :: 0 <= r < 2 * n ==> g.locs[r] == i.locs[r] && g.content[r] == i.content[r];
  }

  lemma UptoNothing()
    ensures Upto(0) == {}
  {
  }

  lemma UptoNext(i: nat)
    ensures Upto(i + 1) == Upto(i) + {i}
  {
  }

  lemma UptoMore(before: set<int>, from: nat, i: nat)
    requires from <= i
    ensures before + (Upto(i + 1) - Upto(from)) == before + (Upto(i) - Upto(from)) + {i}
  {
  }

  /** `checkpoint_info`: the page map of one checkpoint file, updated in place. */
  class CheckpointInfo {
    var pageLocs: seq<nat>
    var ckptContent: seq<nat>
    var freePages: set<int>
    var pendingFreePages: set<int>

    ghost function Model(): Info
      reads this
    {
      Info(pageLocs, ckptContent, freePages, pendingFreePages)
    }

    ghost predicate Valid(n: nat)
      reads this
    {
      Consistent(Model(), n)
    }

    constructor (ckptPageCount: nat)
      requires ckptPageCount % 2 == 0 && ckptPageCount < NULL_PAGE
      ensures Valid(ckptPageCount / 2)
      ensures pageLocs == Nowhere(ckptPageCount) == ckptContent
      ensures freePages == Upto(ckptPageCount) && pendingFreePages == {}
    {
      hide Consistent, Nowhere, Upto;
      pageLocs := Nowhere(ckptPageCount);
      ckptContent := Nowhere(ckptPageCount);
      freePages := {};
      pendingFreePages := {};
      new;
      UptoNothing();
      var i := 0;
      while i < ckptPageCount
        invariant 0 <= i <= ckptPageCount
        invariant freePages == Upto(i)
        invariant pageLocs == Nowhere(ckptPageCount) == ckptContent
        invariant pendingFreePages == {}
      {
        UptoNext(i);
        freePages := freePages + {i};
        i := i + 1;
      }
      NothingPlaced(ckptPageCount / 2);
    }

    /** Grows the file; the new pages are free, everything else stays where it is. */
    method Grow(newCkptPageCount: nat, ghost n: nat)
      requires Valid(n) && 2 * n <= newCkptPageCount < NULL_PAGE && newCkptPageCount % 2 == 0
      modifies this
      ensures Model() == Grown(old(Model()), newCkptPageCount)
      ensures Valid(newCkptPageCount / 2)
      ensures old(pageLocs) <= pageLocs && old(ckptContent) <= ckptContent && |pageLocs| == newCkptPageCount
      ensures pendingFreePages == old(pendingFreePages)
      ensures forall c :: c in freePages <==> c in old(freePages) || 2 * n <= c < newCkptPageCount
    {
      hide Consistent, Nowhere, Upto;
      PlaceCount(Model(), n);
      ghost var target, before := Grown(Model(), newCkptPageCount), freePages;
      var current := |pageLocs|;
      pageLocs := pageLocs + Nowhere(newCkptPageCount - current);
      ckptContent := ckptContent + Nowhere(newCkptPageCount - current);
      var i := current;
      while i < newCkptPageCount
        invariant current <= i <= newCkptPageCount
        invariant pageLocs == target.locs && ckptContent == target.content
        invariant pendingFreePages == target.pending
        invariant freePages == before + (Upto(i) - Upto(current))
      {
        UptoMore(before, current, i);
        freePages := freePages + {i};
        i := i + 1;
      }
      GrownConsistent(old(Model()), n, newCkptPageCount / 2);
    }

    /** The search of `allocate`: up from the page's own number, down if that is nearer. */
    method NearestFree(regionPage: nat) returns (newloc: int)
      requires freePages != {}
      ensures IsClosest(freePages, regionPage, newloc)
      ensures newloc in freePages
      ensures forall f :: f in freePages ==>
        if newloc < regionPage then f <= newloc || regionPage - newloc <= f - regionPage
        else newloc <= f || newloc - regionPage < regionPage - f
    {
      var i := LowerBound(freePages, regionPage);
      if i.Some? {
        var diff := i.value - regionPage;
        var previous := Before(freePages, i.value);
        if diff > 0 && previous.Some? {
          i := previous;
          if regionPage - i.value > diff {
            i := LowerBound(freePages, regionPage);
          }
        }
      } else {
        var x := AnElement(freePages);
        i := Before(freePages, regionPage);
      }
      newloc := i.value;
    }

    /** Moves region page `regionPage` to the nearest free file page; its old place becomes pending. */
    method Allocate(regionPage: nat, ghost n: nat) returns (newloc: nat)
      requires Valid(n) && regionPage < n && freePages != {}
      modifies this
      ensures IsClosest(old(freePages), regionPage, newloc)
      ensures newloc < 2 * n
      ensures Model() == Allocated(old(Model()), regionPage, newloc)
      ensures Valid(n)
    {
      hide Consistent, IsClosest;
      PlaceBounds(Model(), n, regionPage);
      var current := pageLocs[regionPage];
      if current != NULL_PAGE {
        pendingFreePages := pendingFreePages + {current};
        ckptContent := ckptContent[current := NULL_PAGE];
      }
      var found := NearestFree(regionPage);
      ClosestIsFree(freePages, regionPage, found);
      newloc := found;
      ckptContent := ckptContent[newloc := regionPage];
      pageLocs := pageLocs[regionPage := newloc];
      freePages := freePages - {newloc};
      AllocatedConsistent(old(Model()), n, regionPage, newloc);
    }

    /** The pages freed during a checkpoint may be reused once it is complete. */
    method CompleteCheckpoint(ghost n: nat)
      requires Valid(n)
      modifies this
      ensures Model() == Completed(old(Model()))
      ensures Valid(n)
    {
      var i := LowerBound(pendingFreePages, 0);
      ghost var moved: set<int> := {};
      while i.Some?
        invariant pageLocs == old(pageLocs) && ckptContent == old(ckptContent)
        invariant pendingFreePages == old(pendingFreePages)
        invariant moved <= pendingFreePages && freePages == old(freePages) + moved
        invariant i.Some? ==> i.value in pendingFreePages && moved == set c | c in pendingFreePages && c < i.value
        invariant i.None? ==> moved == pendingFreePages
        decreases pendingFreePages - moved
      {
        freePages := freePages + {i.value};
        moved := moved + {i.value};
        i := LowerBound(pendingFreePages, i.value + 1);
      }
      pendingFreePages := {};
      CompletedConsistent(old(Model()), n);
    }
  }
}
