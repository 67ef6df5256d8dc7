/** The 32-bit checksum of log headers and log segments. */
module Checksum {
  newtype uint8 = x: int | 0 <= x < 0x100
  newtype uint32 = x: int | 0 <= x < 0x1_0000_0000

  const MOD_ADLER: uint32 := 65521
  const BLOCK: nat := 5550

  // ---- section 2.2 of RFC 1950, byte by byte

  function S1(data: seq<uint8>): (a: nat)
    ensures a < 65521
  {
    if data == [] then 1 else (S1(data[..|data| - 1]) + data[|data| - 1] as nat) % 65521
  }

  function S2(data: seq<uint8>): (b: nat)
    ensures b < 65521
  {
    if data == [] then 0 else (S2(data[..|data| - 1]) + S1(data)) % 65521
  }

  function Adler32(data: seq<uint8>): (sum: uint32)
  {
    (S2(data) * 0x10000 + S1(data)) as uint32
  }

  // ---- the same sums without reduction, from any starting values

  function Plain1(a: nat, data: seq<uint8>): nat
  {
    if data == [] then a else Plain1(a, data[..|data| - 1]) + data[|data| - 1] as nat
  }

  function Plain2(a: nat, b: nat, data: seq<uint8>): nat
  {
    if data == [] then b else Plain2(a, b, data[..|data| - 1]) + Plain1(a, data)
  }

  lemma {:induction false} Plain1Bound(a: nat, data: seq<uint8>)
    ensures a <= Plain1(a, data) <= a + 255 * |data|
  {
    if data != [] {
      Plain1Bound(a, data[..|data| - 1]);
    }
  }

  /** Twice the largest value `b` can reach in `n` steps, written without a division. */
  function TwiceTop(a: nat, b: nat, n: nat): nat
  {
    2 * b + 2 * n * a + 255 * (n * (n + 1))
  }

  lemma TwiceTopStep(a: nat, b: nat, n: nat)
    requires n > 0
    ensures TwiceTop(a, b, n) == TwiceTop(a, b, n - 1) + 2 * (a + 255 * n)
  {
    assert 2 * n * a == 2 * (n - 1) * a + 2 * a;
    assert n * (n + 1) == (n - 1) * n + 2 * n;
  }

  lemma {:induction false} Plain2Bound(a: nat, b: nat, data: seq<uint8>)
    ensures b <= Plain2(a, b, data)
    ensures 2 * Plain2(a, b, data) <= TwiceTop(a, b, |data|)
  {
    if data != [] {
      Plain2Bound(a, b, data[..|data| - 1]);
      Plain1Bound(a, data);
      TwiceTopStep(a, b, |data|);
    }
  }

  lemma TopGrows(a: nat, a': nat, b: nat, b': nat, n: nat, n': nat)
    requires a <= a' && b <= b' && n <= n'
    ensures TwiceTop(a, b, n) <= TwiceTop(a', b', n')
  {
    MulGrows(n, a, n', a');
    MulGrows(n, n + 1, n', n' + 1);
    assert 2 * n * a == 2 * (n * a) && 2 * n' * a' == 2 * (n' * a');
  }

  lemma MulGrows(x: nat, y: nat, x': nat, y': nat)
    requires x <= x' && y <= y'
    ensures x * y <= x' * y'
  {
    assert x * y <= x * y';
    assert x * y' <= x' * y';
  }

  function Ones(n: nat): (data: seq<uint8>)
    ensures |data| == n
  {
    seq(n, i => 255)
  }

  lemma {:induction false} OnesReachTop(a: nat, b: nat, n: nat)
    ensures Plain1(a, Ones(n)) == a + 255 * n
    ensures 2 * Plain2(a, b, Ones(n)) == TwiceTop(a, b, n)
  {
    if n > 0 {
      assert Ones(n)[..n - 1] == Ones(n - 1);
      OnesReachTop(a, b, n - 1);
      TwiceTopStep(a, b, n);
    }
  }

  /**
   The accumulators of one block start below 65521 and stay within 32 bits for every input; the worst
   case of a 5550-byte block is 4,291,727,895, and it occurs.
   */
  lemma BlockFits(a: nat, b: nat, data: seq<uint8>)
    requires a < 65521 && b < 65521 && |data| <= BLOCK
    ensures Plain1(a, data) <= Plain2(a, b, data) + 65520
    ensures Plain1(a, data) < 0x1_0000_0000 && Plain2(a, b, data) <= 4_291_727_895
    ensures Plain2(65520, 65520, Ones(BLOCK)) == 4_291_727_895
  {
    Plain1Bound(a, data);
    Plain2Bound(a, b, data);
    TopGrows(a, 65520, b, 65520, |data|, BLOCK);
    OnesReachTop(65520, 65520, BLOCK);
    if data != [] {
      Plain2Bound(a, b, data[..|data| - 1]);
    }
  }

  /** Reduction may be put off for `n` bytes, for every input, exactly when `n` is at most 5552. */
  lemma LongestBlock(n: nat)
    ensures n <= 5552 <==>
      forall a, b, data: seq<uint8> :: a < 65521 && b < 65521 && |data| == n ==> Plain2(a, b, data) < 0x1_0000_0000
  {
    if n <= 5552 {
      forall a: nat, b: nat, data: seq<uint8> | a < 65521 && b < 65521 && |data| == n
        ensures Plain2(a, b, data) < 0x1_0000_0000
      {
        Plain2Bound(a, b, data);
        TopGrows(a, 65520, b, 65520, n, 5552);
      }
    } else {
      OnesReachTop(65520, 65520, n);
      TopGrows(65520, 65520, 65520, 65520, 5553, n);
      assert Plain2(65520, 65520, Ones(n)) >= 0x1_0000_0000;
    }
  }

  lemma ReduceLater(x: nat, y: nat)
    ensures (x % 65521 + y) % 65521 == (x + y) % 65521
    ensures (x % 65521 + y % 65521) % 65521 == (x + y) % 65521
  {
    var p, q := x / 65521, y / 65521;
    assert x + y == (x % 65521 + y) + 65521 * p;
    assert x % 65521 + y == (x % 65521 + y % 65521) + 65521 * q;
  }

  lemma {:induction false} ReducedS1(before: seq<uint8>, data: seq<uint8>)
    ensures S1(before + data) == Plain1(S1(before), data) % 65521
  {
    var all := before + data;
    if data == [] {
      assert all == before;
    } else {
      var front, last := data[..|data| - 1], data[|data| - 1] as nat;
      assert all[..|all| - 1] == before + front;
      ReducedS1(before, front);
      ReduceLater(Plain1(S1(before), front), last);
    }
  }

  lemma {:induction false} ReducedS2(before: seq<uint8>, data: seq<uint8>)
    ensures S2(before + data) == Plain2(S1(before), S2(before), data) % 65521
  {
    var all := before + data;
    if data == [] {
      assert all == before;
    } else {
      var front := data[..|data| - 1];
      assert all[..|all| - 1] == before + front;
      ReducedS2(before, front);
      ReducedS1(before, data);
      hide S1, Plain1;
      ReduceLater(Plain2(S1(before), S2(before), front), Plain1(S1(before), data));
    }
  }

  // ---- what the checksum is good for

  lemma {:induction false} Plain1Shift(a: nat, data: seq<uint8>)
    ensures Plain1(a, data) == a + Plain1(0, data)
  {
    if data != [] {
      Plain1Shift(a, data[..|data| - 1]);
    }
  }

  lemma {:induction false} Plain1Front(a: nat, x: uint8, data: seq<uint8>)
    ensures Plain1(a, [x] + data) == Plain1(a + x as nat, data)
  {
    var all := [x] + data;
    if data == [] {
      assert all[..0] == [];
    } else {
      assert all[..|all| - 1] == [x] + data[..|data| - 1];
      Plain1Front(a, x, data[..|data| - 1]);
    }
  }

  lemma S1Around(before: seq<uint8>, x: uint8, behind: seq<uint8>)
    ensures S1(before + [x] + behind) == (S1(before) + Plain1(0, behind) + x as nat) % 65521
  {
    assert before + [x] + behind == before + ([x] + behind);
    ReducedS1(before, [x] + behind);
    Plain1Front(S1(before), x, behind);
    Plain1Shift(S1(before) + x as nat, behind);
  }

  lemma ResiduesDiffer(c: nat, x: nat, y: nat)
    requires x < 256 && y < 256 && x != y
    ensures (c + x) % 65521 != (c + y) % 65521
  {
    var r := c % 65521;
    ReduceLater(c, x);
    ReduceLater(c, y);
  }

  /** Changing any one byte changes the checksum. */
  lemma OneByteShows(data: seq<uint8>, k: nat, x: uint8)
    requires k < |data| && x != data[k]
    ensures Adler32(data[k := x]) != Adler32(data)
  {
    var before, behind := data[..k], data[k + 1..];
    assert data == before + [data[k]] + behind && data[k := x] == before + [x] + behind;
    S1Around(before, x, behind);
    S1Around(before, data[k], behind);
    ResiduesDiffer(S1(before) + Plain1(0, behind), x as nat, data[k] as nat);
    SumParts(data);
    SumParts(data[k := x]);
  }

  lemma SumParts(data: seq<uint8>)
    ensures Adler32(data) as nat % 0x10000 == S1(data) && Adler32(data) as nat / 0x10000 == S2(data)
  {
  }

  /** The checksum of the bytes of "Wikipedia", a common test value, and that of no bytes. */
  lemma KnownSums()
    ensures Adler32([87, 105, 107, 105, 112, 101, 100, 105, 97]) == 0x11E6_0398
    ensures Adler32([]) == 1
  {
    hide S1, S2;
    var d0: seq<uint8> := [];
    NoBytes();
    var d1 := SumNext(d0, 87, 1, 0);
    var d2 := SumNext(d1, 105, 88, 88);
    var d3 := SumNext(d2, 107, 193, 281);
    var d4 := SumNext(d3, 105, 300, 581);
    var d5 := SumNext(d4, 112, 405, 986);
    var d6 := SumNext(d5, 101, 517, 1503);
    var d7 := SumNext(d6, 100, 618, 2121);
    var d8 := SumNext(d7, 105, 718, 2839);
    var d9 := SumNext(d8, 97, 823, 3662);
    assert d9 == [87, 105, 107, 105, 112, 101, 100, 105, 97];
    assert 4582 * 0x10000 + 920 == 0x11E6_0398;
  }

  lemma NoBytes()
    ensures S1([]) == 1 && S2([]) == 0
  {
  }

  lemma SumNext(data: seq<uint8>, x: uint8, a: nat, b: nat) returns (more: seq<uint8>)
    requires S1(data) == a && S2(data) == b && a + x as nat < 65521 && a + b + (x as nat) < 65521
    ensures more == data + [x] && S1(more) == a + x as nat && S2(more) == b + a + x as nat
  {
    more := data + [x];
    assert more[..|data|] == data;
  }

  /** `adler`: whole blocks are summed before the accumulators are reduced. */
  method Adler(data: seq<uint8>) returns (sum: uint32)
    ensures sum == Adler32(data)
  {
    var a: uint32, b: uint32 := 1, 0;
    var next, len := 0, |data|;
    while len > 0
      invariant 0 <= len && 0 <= next && next + len == |data|
      invariant a as nat == S1(data[..next]) && b as nat == S2(data[..next])
    {
      var tlen := if len > BLOCK then BLOCK else len;
      len := len - tlen;
      ghost var start, a0, b0 := next, a as nat, b as nat;
      while tlen > 0
        invariant 0 <= tlen && 0 <= len && start <= next && next + tlen + len == |data| && next + tlen <= start + BLOCK
        invariant a as nat == Plain1(a0, data[start..next])
        invariant b as nat == Plain2(a0, b0, data[start..next])
      {
        assert data[start..next + 1][..next - start] == data[start..next];
        BlockFits(a0, b0, data[start..next + 1]);
        a := a + data[next] as uint32;
        b := b + a;
        next := next + 1;
        tlen := tlen - 1;
      }
      ReducedS1(data[..start], data[start..next]);
      ReducedS2(data[..start], data[start..next]);
      assert data[..start] + data[start..next] == data[..next];
      a := a % MOD_ADLER;
      b := b % MOD_ADLER;
    }
    assert data[..next] == data;
    sum := b * 0x10000 + a;
  }
}
