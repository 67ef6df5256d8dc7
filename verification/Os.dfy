/**
 The operating system's read and gathered write, which may move fewer bytes than asked for, be
 interrupted, or fail; and the two loops that put up with it.
 */
module Os {
  import opened Checksum

  /** What the system does with one call: move up to `n` bytes, at least one; or nothing. */
  datatype Answer = Moved(n: nat) | Interrupted | Failed

  datatype Outcome<T> = Ok(value: T) | IoError

  function Min(a: nat, b: nat): nat
  {
    if a < b then a else b
  }

  /** The system calls.  Each takes the next answer of a script; after the last one all goes well. */
  class System {
    var script: seq<Answer>

    constructor (script: seq<Answer>)
      ensures this.script == script
    {
      this.script := script;
    }

    /** How many of `n > 0` bytes the next call moves, or -1 with `interrupted` telling the error. */
    method Move(n: nat) returns (moved: int, interrupted: bool)
      requires n > 0
      modifies this
      ensures moved == -1 || 0 < moved <= n
      ensures moved < n ==> |script| < |old(script)|
      ensures script == old(script) || (old(script) != [] && script == old(script)[1..])
      ensures moved == -1 && !interrupted ==> old(script) != [] && old(script)[0] == Failed
    {
      moved, interrupted := n, false;
      if script != [] {
        match script[0] {
          case Moved(k) => moved := Min(if k == 0 then 1 else k, n);
          case Interrupted => moved, interrupted := -1, true;
          case Failed => moved := -1;
        }
        script := script[1..];
      }
    }
  }

  // ---- read_file

  method ReadFile(os: System, file: seq<uint8>, pos: nat, n: nat) returns (r: Outcome<seq<uint8>>)
    requires pos <= |file|
    modifies os
    ensures r.Ok? ==> r.value == file[pos..Min(pos + n, |file|)]
    ensures r.IoError? ==> Failed in old(os.script)
    ensures forall a :: a in os.script ==> a in old(os.script)
  {
    var total, left := 0, n;
    var read, interrupted := SystemRead(os, file, pos, left);
    while read < left
      invariant 0 <= left && total + left == n && pos + total <= |file| && read <= Min(left, |file| - pos - total)
      invariant read == -1 || 0 <= read
      invariant read == 0 ==> left == 0 || pos + total == |file|
      invariant read == -1 && !interrupted ==> Failed in old(os.script)
      invariant forall a :: a in os.script ==> a in old(os.script)
      decreases left, |os.script|, if read == -1 then 1 else 0
    {
      if read == -1 {
        if !interrupted {
          return IoError;
        }
      } else if read == 0 {
        return Ok(file[pos..pos + total]);
      } else {
        total, left := total + read, left - read;
      }
      read, interrupted := SystemRead(os, file, pos + total, left);
    }
    return Ok(file[pos..pos + total + read]);
  }

  /** `::read`: 0 at the end of the file, else as the system likes. */
  method SystemRead(os: System, file: seq<uint8>, pos: nat, n: nat) returns (read: int, interrupted: bool)
    requires pos <= |file|
    modifies os
    ensures read == -1 || 0 <= read <= Min(n, |file| - pos)
    ensures read == 0 ==> n == 0 || pos == |file|
    ensures read == -1 ==> |os.script| < |old(os.script)|
    ensures |os.script| <= |old(os.script)|
    ensures read == -1 && !interrupted ==> Failed in old(os.script)
    ensures forall a :: a in os.script ==> a in old(os.script)
  {
    var most := Min(n, |file| - pos);
    if most == 0 {
      return 0, false;
    }
    read, interrupted := os.Move(most);
  }

  // ---- gathered_write_file

  function Concat(regions: seq<seq<uint8>>): seq<uint8>
    decreases |regions|
  {
    if regions == [] then [] else regions[0] + Concat(regions[1..])
  }

  lemma {:induction false} ConcatSplit(a: seq<seq<uint8>>, b: seq<seq<uint8>>)
    ensures Concat(a + b) == Concat(a) + Concat(b)
    decreases |a|
  {
    if a == [] {
      assert a + b == b;
    } else {
      assert (a + b)[1..] == a[1..] + b;
      ConcatSplit(a[1..], b);
    }
  }

  function Total(regions: seq<seq<uint8>>): (n: nat)
    ensures n == |Concat(regions)|
    decreases |regions|
  {
    if regions == [] then 0 else |regions[0]| + Total(regions[1..])
  }

  /** The file after `data` has been written at `pos`. */
  function Overwrite(file: seq<uint8>, pos: nat, data: seq<uint8>): (r: seq<uint8>)
    requires pos <= |file|
    ensures |r| == if pos + |data| < |file| then |file| else pos + |data|
  {
    file[..pos] + data + (if pos + |data| < |file| then file[pos + |data|..] else [])
  }

  lemma OverwriteNothing(file: seq<uint8>, pos: nat)
    requires pos <= |file|
    ensures Overwrite(file, pos, []) == file
  {
  }

  lemma OverwriteTwice(file: seq<uint8>, pos: nat, a: seq<uint8>, b: seq<uint8>)
    requires pos <= |file|
    ensures Overwrite(Overwrite(file, pos, a), pos + |a|, b) == Overwrite(file, pos, a + b)
  {
    var once := Overwrite(file, pos, a);
    assert once[..pos + |a|] == file[..pos] + a;
    if pos + |a| + |b| < |file| {
      assert once[pos + |a| + |b|..] == file[pos + |a| + |b|..];
    }
  }

  /** `::writev`: some of the bytes of the regions, in order. */
  method SystemWritev(os: System, file: seq<uint8>, pos: nat, regions: seq<seq<uint8>>)
    returns (written: int, interrupted: bool, after: seq<uint8>)
    requires pos <= |file|
    modifies os
    ensures written == -1 || 0 <= written <= |Concat(regions)|
    ensures after == if written > 0 then Overwrite(file, pos, Concat(regions)[..written]) else file
    ensures |os.script| <= |old(os.script)|
    ensures written < |Concat(regions)| ==> |os.script| < |old(os.script)|
    ensures written == -1 && !interrupted ==> Failed in old(os.script)
    ensures forall a :: a in os.script ==> a in old(os.script)
  {
    var most := Total(regions);
    if most == 0 {
      return 0, false, file;
    }
    written, interrupted := os.Move(most);
    after := if written > 0 then Overwrite(file, pos, Concat(regions)[..written]) else file;
  }

  /** Dropping `n` bytes: the regions wholly among them, then the front of the next one. */
  lemma {:induction false} DropRegions(regions: seq<seq<uint8>>, k: nat, n: nat)
    requires k < |regions| && n <= |regions[k]|
    ensures Total(regions[..k]) + n <= Total(regions)
    ensures Concat([regions[k][n..]] + regions[k + 1..]) == Concat(regions)[Total(regions[..k]) + n..]
  {
    var front, rest := regions[..k], regions[k + 1..];
    assert regions == front + ([regions[k]] + rest);
    ConcatSplit(front, [regions[k]] + rest);
    ConcatSplit([regions[k]], rest);
    ConcatSplit([regions[k][n..]], rest);
    assert Concat([regions[k]]) == regions[k] && Concat([regions[k][n..]]) == regions[k][n..];
  }

  /**
   Writes the first `count` regions of `iov` at `pos`, in order and without gaps, however the system
   splits them up.  The regions are consumed in place.
   */
  method GatheredWriteFile(os: System, file: seq<uint8>, pos: nat, iov: array<seq<uint8>>, count: nat)
    returns (ok: bool, after: seq<uint8>)
    requires pos <= |file| && count <= iov.Length
    modifies os, iov
    ensures ok ==> after == Overwrite(file, pos, Concat(old(iov[..count])))
    ensures !ok ==> Failed in old(os.script)
    ensures !ok ==> exists n :: 0 <= n <= |Concat(old(iov[..count]))| && after == Overwrite(file, pos, Concat(old(iov[..count]))[..n])
    ensures forall a :: a in os.script ==> a in old(os.script)
  {
    hide Overwrite, Concat, Total, Landed;
    ghost var all := Concat(iov[..count]);
    NothingLanded(file, pos, all);
    var toWrite := Total(iov[..count]);
    var total, remaining, first := 0, toWrite, 0;
    assert iov[first..count] == iov[..count];
    var written, interrupted;
    written, interrupted, after := WriteOn(os, file, pos, file, 0, iov[first..count], all);
    while written < remaining
      invariant 0 <= first <= count && 0 <= total && 0 <= remaining && total + remaining == toWrite == |all|
      invariant all[total..] == Concat(iov[first..count])
      invariant written == -1 || 0 <= written <= remaining
      invariant Landed(file, pos, all, total + if written > 0 then written else 0, after)
      invariant written == -1 && !interrupted ==> Failed in old(os.script)
      invariant forall a :: a in os.script ==> a in old(os.script)
      decreases |os.script|, remaining - written
    {
      if written == -1 {
        if !interrupted {
          SomeLanded(file, pos, all, total, after);
          return false, after;
        }
      } else {
        total, remaining := total + written, remaining - written;
        first := DropWritten(iov, first, count, written);
        assert all[total..] == all[total - written..][written..];
      }
      written, interrupted, after := WriteOn(os, file, pos, after, total, iov[first..count], all);
    }
    total := total + written;
    SomeLanded(file, pos, all, total, after);
    ok := total == toWrite;
  }

  /** The first `total` bytes of `all` have reached the file at `pos`. */
  ghost predicate Landed(file: seq<uint8>, pos: nat, all: seq<uint8>, total: nat, after: seq<uint8>)
  {
    pos <= |file| && total <= |all| && after == Overwrite(file, pos, all[..total])
  }

  lemma NothingLanded(file: seq<uint8>, pos: nat, all: seq<uint8>)
    requires pos <= |file|
    ensures Landed(file, pos, all, 0, file) && all[0..] == all
  {
    assert all[..0] == [];
    OverwriteNothing(file, pos);
  }

  lemma SomeLanded(file: seq<uint8>, pos: nat, all: seq<uint8>, total: nat, after: seq<uint8>)
    requires Landed(file, pos, all, total, after)
    ensures pos <= |file| && 0 <= total <= |all| && after == Overwrite(file, pos, all[..total])
    ensures total == |all| ==> all[..total] == all
  {
  }

  /** One more `writev` behind what has been written. */
  method WriteOn(os: System, ghost file: seq<uint8>, pos: nat, now: seq<uint8>, total: nat, regions: seq<seq<uint8>>, ghost all: seq<uint8>)
    returns (written: int, interrupted: bool, after: seq<uint8>)
    requires Landed(file, pos, all, total, now) && all[total..] == Concat(regions)
    modifies os
    ensures written == -1 || 0 <= written <= |all| - total
    ensures Landed(file, pos, all, total + if written > 0 then written else 0, after)
    ensures |os.script| <= |old(os.script)|
    ensures written < |all| - total ==> |os.script| < |old(os.script)|
    ensures written == -1 && !interrupted ==> Failed in old(os.script)
    ensures forall a :: a in os.script ==> a in old(os.script)
  {
    hide Concat, Overwrite;
    written, interrupted, after := SystemWritev(os, now, pos + total, regions);
    if written > 0 {
      OverwriteTwice(file, pos, all[..total], all[total..][..written]);
      assert all[..total] + all[total..][..written] == all[..total + written];
    }
  }

  lemma NoneTaken(regions: seq<seq<uint8>>)
    ensures Total(regions[..0]) == 0 && regions[0..] == regions
  {
  }

  lemma OneMoreTaken(regions: seq<seq<uint8>>, k: nat)
    requires k < |regions|
    ensures Total(regions[..k + 1]) == Total(regions[..k]) + |regions[k]|
  {
    assert regions[..k + 1] == regions[..k] + [regions[k]];
    ConcatSplit(regions[..k], [regions[k]]);
    assert [regions[k]][1..] == [] && Concat([regions[k]]) == regions[k] + Concat([]);
  }

  lemma TotalOfAll(regions: seq<seq<uint8>>, k: nat)
    requires k <= |regions|
    ensures k == |regions| ==> Total(regions[..k]) == Total(regions)
  {
    assert k == |regions| ==> regions[..k] == regions;
  }

  /** Leaves in `iov[r..count]` what follows the first `written` bytes of `iov[first..count]`. */
  method DropWritten(iov: array<seq<uint8>>, first: nat, count: nat, written: nat) returns (r: nat)
    requires first <= count <= iov.Length && written < |Concat(iov[first..count])|
    modifies iov
    ensures first <= r < count
    ensures Concat(iov[r..count]) == old(Concat(iov[first..count]))[written..]
  {
    hide Concat, Total;
    ghost var regions := iov[first..count];
    var left := written;
    r := first;
    NoneTaken(regions);
    while r < count && |iov[r]| < left
      invariant first <= r <= count && iov[first..count] == regions
      invariant 0 <= left && Total(regions[..r - first]) + left == written
    {
      OneMoreTaken(regions, r - first);
      left, r := left - |iov[r]|, r + 1;
    }
    TotalOfAll(regions, r - first);
    DropRegions(regions, r - first, left);
    iov[r] := iov[r][left..];
    assert iov[r..count] == [regions[r - first][left..]] + regions[r - first + 1..];
  }
}
