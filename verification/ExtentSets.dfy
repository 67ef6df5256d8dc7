/** Sets of byte extents: tilings of a file, and the canonical set of extents with given bytes. */
module ExtentSets {

  const ALIGNMENT: int := 64

  datatype Extent = Extent(offset: int, size: int) {
    function End(): int
    {
      offset + size
    }
  }

  predicate Covers(e: Extent, x: int)
  {
    e.offset <= x < e.End()
  }

  ghost predicate Has(s: set<Extent>, x: int)
  {
    exists e :: e in s && Covers(e, x)
  }

  predicate Apart(e: Extent, f: Extent)
  {
    e.End() <= f.offset || f.End() <= e.offset
  }

  ghost predicate Disjoint(s: set<Extent>)
  {
    forall e, f :: e in s && f in s && e != f ==> Apart(e, f)
  }

  ghost predicate Positive(s: set<Extent>)
  {
    forall e :: e in s ==> e.size > 0
  }

  /** No two extents touch: each is a maximal run of bytes. */
  ghost predicate Canonical(s: set<Extent>)
  {
    Positive(s) && Disjoint(s) && forall e, f :: e in s && f in s ==> e.End() != f.offset
  }

  ghost predicate SameBytes(s: set<Extent>, t: set<Extent>)
  {
    forall x :: Has(s, x) <==> Has(t, x)
  }

  lemma Covered(s: set<Extent>, e: Extent, x: int)
    requires e in s && Covers(e, x)
    ensures Has(s, x)
  {
  }

  ghost function CoverOf(s: set<Extent>, x: int): (e: Extent)
    requires Has(s, x)
    ensures e in s && Covers(e, x)
  {
    var e :| e in s && Covers(e, x);
    e
  }

  /** An extent of a canonical set ends where its bytes end, on both sides. */
  lemma Edges(s: set<Extent>, e: Extent)
    requires Canonical(s) && e in s
    ensures Has(s, e.offset) && !Has(s, e.offset - 1)
    ensures Has(s, e.End() - 1) && !Has(s, e.End())
    ensures e.size > 0
  {
    Covered(s, e, e.offset);
    Covered(s, e, e.End() - 1);
    forall f | f in s ensures !Covers(f, e.offset - 1) && !Covers(f, e.End()) {
      if f != e {
        assert Apart(e, f);
      }
    }
  }

  lemma CanonicalMember(s: set<Extent>, t: set<Extent>, e: Extent)
    requires Canonical(s) && Canonical(t) && SameBytes(s, t) && e in s
    ensures e in t
  {
    hide Has, Canonical;
    Edges(s, e);
    assert Has(t, e.offset) && !Has(t, e.offset - 1);
    var f := CoverOf(t, e.offset);
    assert f.offset < e.offset ==> Covers(f, e.offset - 1);
    if f.offset < e.offset {
      Covered(t, f, e.offset - 1);
    }
    Edges(t, f);
    assert !Has(s, f.End()) && !Has(t, e.End());
    if Covers(e, f.End()) {
      Covered(s, e, f.End());
    }
    if Covers(f, e.End()) {
      Covered(t, f, e.End());
    }
  }

  /** The canonical form: there is only one canonical set of extents with given bytes. */
  lemma CanonicalUnique(s: set<Extent>, t: set<Extent>)
    requires Canonical(s) && Canonical(t) && SameBytes(s, t)
    ensures s == t
  {
    forall e ensures e in s <==> e in t {
      if e in s {
        CanonicalMember(s, t, e);
      } else if e in t {
        CanonicalMember(t, s, e);
      }
    }
  }

  // ---- tilings

  predicate Aligned(e: Extent, length: int)
  {
    && 0 <= e.offset && e.size > 0 && e.End() <= length
    && e.offset % ALIGNMENT == 0 && e.size % ALIGNMENT == 0
  }

  /** Every byte of the file is in exactly one extent, and the extents are whole 64-byte units. */
  ghost predicate Tiles(s: set<Extent>, length: int)
  {
    && length >= 0 && length % ALIGNMENT == 0
    && (forall e :: e in s ==> Aligned(e, length))
    && Disjoint(s)
    && forall x :: 0 <= x < length ==> Has(s, x)
  }

  lemma OneCover(s: set<Extent>, e: Extent, f: Extent, x: int)
    requires Disjoint(s) && e in s && f in s && Covers(e, x) && Covers(f, x)
    ensures e == f
  {
  }

  lemma NoShared(e: Extent, f: Extent)
    requires e.size > 0 && f.size > 0 && forall x :: Covers(e, x) ==> !Covers(f, x)
    ensures Apart(e, f)
  {
    assert Covers(e, e.offset) && (Covers(e, f.offset) ==> !Covers(f, f.offset));
  }

  lemma SplitDisjoint(s: set<Extent>, e: Extent, n: int)
    requires Disjoint(s) && e in s && 0 < n < e.size
    ensures Disjoint(s - {e} + {Extent(e.offset, n), Extent(e.offset + n, e.size - n)})
  {
    var t := s - {e} + {Extent(e.offset, n), Extent(e.offset + n, e.size - n)};
    forall f, g | f in t && g in t && f != g ensures Apart(f, g) {
      assert f in s - {e} ==> Apart(e, f);
      assert g in s - {e} ==> Apart(e, g);
    }
  }

  /** Cutting one extent in two keeps a tiling. */
  lemma TilesSplit(s: set<Extent>, length: int, e: Extent, n: int)
    requires Tiles(s, length) && e in s && 0 < n < e.size && n % ALIGNMENT == 0
    ensures Tiles(s - {e} + {Extent(e.offset, n), Extent(e.offset + n, e.size - n)}, length)
  {
    hide Disjoint, Has;
    var a, b := Extent(e.offset, n), Extent(e.offset + n, e.size - n);
    var t := s - {e} + {a, b};
    SplitDisjoint(s, e, n);
    assert Aligned(e, length);
    forall x | 0 <= x < length ensures Has(t, x) {
      assert Has(s, x);
      var f := CoverOf(s, x);
      Covered(t, if f != e then f else if x < b.offset then a else b, x);
    }
  }

  /** Adding an extent at the end of the file keeps a tiling. */
  lemma TilesGrow(s: set<Extent>, length: int, n: int)
    requires Tiles(s, length) && n > 0 && n % ALIGNMENT == 0
    ensures Tiles(s + {Extent(length, n)}, length + n)
  {
    var last := Extent(length, n);
    var t := s + {last};
    forall x | 0 <= x < length + n ensures Has(t, x) {
      assert x < length ==> Has(s, x);
      var f := if x < length then CoverOf(s, x) else last;
      Covered(t, f, x);
    }
    assert forall e :: e in s ==> Aligned(e, length);
  }

  // ---- replacing some extents of a tiling by others with the same bytes

  /** Bytes come in whole 64-byte units. */
  ghost predicate InUnits(s: set<Extent>)
  {
    forall x, y :: Has(s, x) && x / ALIGNMENT == y / ALIGNMENT ==> Has(s, y)
  }

  lemma UnitsOfTiles(s: set<Extent>, length: int)
    requires forall e :: e in s ==> Aligned(e, length)
    ensures InUnits(s)
  {
    forall x, y | Has(s, x) && x / ALIGNMENT == y / ALIGNMENT ensures Has(s, y) {
      var e :| e in s && Covers(e, x);
      assert Aligned(e, length);
      SameUnit(e.offset, x, y);
      SameUnit(e.End(), x, y);
      assert Covers(e, y);
    }
  }

  lemma SameUnit(edge: int, x: int, y: int)
    requires edge % ALIGNMENT == 0 && x / ALIGNMENT == y / ALIGNMENT
    ensures edge <= x <==> edge <= y
  {
  }

  lemma UnitEdge(x: int)
    ensures x % ALIGNMENT == 0 || (x - 1) / ALIGNMENT == x / ALIGNMENT
  {
  }

  /** A canonical set with its bytes in whole units consists of aligned extents. */
  lemma CanonicalAligned(s: set<Extent>, length: int)
    requires Canonical(s) && InUnits(s) && forall x :: Has(s, x) ==> 0 <= x < length
    ensures forall e :: e in s ==> Aligned(e, length)
  {
    forall e | e in s ensures Aligned(e, length) {
      Edges(s, e);
      UnitEdge(e.offset);
      UnitEdge(e.End());
    }
  }

  /**
   In a tiling by `old'` and `rest`, the extents of `old'` may be replaced by any canonical set
   with the same bytes.
   */
  lemma TilesReplaced(old': set<Extent>, rest: set<Extent>, new': set<Extent>, length: int)
    requires Tiles(old' + rest, length) && old' !! rest
    requires Canonical(new') && SameBytes(old', new')
    ensures Tiles(new' + rest, length) && new' !! rest
  {
    var s, t := old' + rest, new' + rest;
    assert forall e :: e in old' ==> e in s && Aligned(e, length);
    UnitsOfTiles(old', length);
    assert forall x :: Has(old', x) ==> 0 <= x < length;
    CanonicalAligned(new', length);
    forall e, f | e in new' && f in rest ensures Apart(e, f) {
      assert f in s && Aligned(f, length);
      forall x | Covers(e, x) ensures !Covers(f, x) {
        assert Has(new', x) && Has(old', x);
        var g :| g in old' && Covers(g, x);
        assert g in s;
        if Covers(f, x) {
          OneCover(s, f, g, x);
        }
      }
      NoShared(e, f);
    }
    assert forall e :: e in t ==> Aligned(e, length);
    TilesCovered(old', rest, new', length);
  }

  lemma TilesCovered(old': set<Extent>, rest: set<Extent>, new': set<Extent>, length: int)
    requires forall x :: 0 <= x < length ==> Has(old' + rest, x)
    requires SameBytes(old', new')
    ensures forall x :: 0 <= x < length ==> Has(new' + rest, x)
  {
    forall x | 0 <= x < length ensures Has(new' + rest, x) {
      assert Has(old' + rest, x);
      var e :| e in old' + rest && Covers(e, x);
      if e in old' {
        assert Has(old', x) && Has(new', x);
        var f :| f in new' && Covers(f, x);
        assert f in new' + rest;
      } else {
        assert e in new' + rest;
      }
    }
  }
}
