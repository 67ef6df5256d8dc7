/** Log records as bytes: the 24-byte header, its checksum, and the commit buffer it describes. */
module LogFormat {
  import opened Checksum

  newtype int64 = x: int | -0x8000_0000_0000_0000 <= x < 0x8000_0000_0000_0000

  const HEADER_SIZE: nat := 24
  const NO_TRANSACTION: int64 := -1

  /** The fields in the order they are stored, all little-endian. */
  datatype Header = Header(opCount: uint32, segmentSize: uint32, lsn: int64, segmentChecksum: uint32, headerChecksum: uint32)

  const BLANK: Header := Header(0, 0, 0, 0, 0)

  predicate Padding(h: Header)
  {
    h.segmentChecksum == 0 && h.opCount == 0 && h.lsn == 0
  }

  predicate Empty(h: Header)
  {
    h == BLANK
  }

  // ---- little-endian numbers

  function Power256(n: nat): (p: nat)
    ensures p > 0
  {
    if n == 0 then 1 else 256 * Power256(n - 1)
  }

  function Little(x: nat, n: nat): (s: seq<uint8>)
    ensures |s| == n
  {
    if n == 0 then [] else [(x % 256) as uint8] + Little(x / 256, n - 1)
  }

  function FromLittle(s: seq<uint8>): (x: nat)
    ensures x < Power256(|s|)
    decreases |s|
  {
    if s == [] then 0 else s[0] as nat + 256 * FromLittle(s[1..])
  }

  lemma {:induction false} LittleRoundTrip(x: nat, n: nat)
    requires x < Power256(n)
    ensures FromLittle(Little(x, n)) == x
  {
    if n > 0 {
      LittleRoundTrip(x / 256, n - 1);
      assert Little(x, n)[1..] == Little(x / 256, n - 1);
    }
  }

  lemma {:induction false} FromLittleRoundTrip(s: seq<uint8>)
    ensures Little(FromLittle(s), |s|) == s
    decreases |s|
  {
    if s != [] {
      FromLittleRoundTrip(s[1..]);
      var x := FromLittle(s);
      assert x % 256 == s[0] as nat && x / 256 == FromLittle(s[1..]);
    }
  }

  lemma Powers()
    ensures Power256(4) == 0x1_0000_0000 && Power256(8) == 0x1_0000_0000_0000_0000
  {
    assert Power256(2) == 65536;
    assert Power256(4) == 0x1_0000_0000;
    assert Power256(6) == 0x1_0000_0000_0000;
  }

  function Word(x: uint32): (s: seq<uint8>)
    ensures |s| == 4
  {
    Little(x as nat, 4)
  }

  function FromWord(s: seq<uint8>): uint32
    requires |s| == 4
  {
    Powers();
    FromLittle(s) as uint32
  }

  function Long(x: int64): (s: seq<uint8>)
    ensures |s| == 8
  {
    Little(if x < 0 then x as int + 0x1_0000_0000_0000_0000 else x as int, 8)
  }

  function FromLong(s: seq<uint8>): int64
    requires |s| == 8
  {
    Powers();
    var x := FromLittle(s);
    (if x < 0x8000_0000_0000_0000 then x else x - 0x1_0000_0000_0000_0000) as int64
  }

  lemma WordRoundTrip(x: uint32, s: seq<uint8>)
    ensures FromWord(Word(x)) == x
    ensures |s| == 4 ==> Word(FromWord(s)) == s
  {
    Powers();
    LittleRoundTrip(x as nat, 4);
    FromLittleRoundTrip(s);
  }

  lemma LongRoundTrip(x: int64, s: seq<uint8>)
    ensures FromLong(Long(x)) == x
    ensures |s| == 8 ==> Long(FromLong(s)) == s
  {
    Powers();
    LittleRoundTrip(if x < 0 then x as int + 0x1_0000_0000_0000_0000 else x as int, 8);
    FromLittleRoundTrip(s);
  }

  // ---- headers

  function Encode(h: Header): (s: seq<uint8>)
    ensures |s| == HEADER_SIZE
  {
    Word(h.opCount) + Word(h.segmentSize) + Long(h.lsn) + Word(h.segmentChecksum) + Word(h.headerChecksum)
  }

  function Decode(s: seq<uint8>): Header
    requires |s| == HEADER_SIZE
  {
    Header(FromWord(s[0..4]), FromWord(s[4..8]), FromLong(s[8..16]), FromWord(s[16..20]), FromWord(s[20..24]))
  }

  lemma DecodeEncode(h: Header)
    ensures Decode(Encode(h)) == h
  {
    hide Word, FromWord, Long, FromLong;
    var s := Encode(h);
    assert s[0..4] == Word(h.opCount) && s[4..8] == Word(h.segmentSize) && s[8..16] == Long(h.lsn);
    assert s[16..20] == Word(h.segmentChecksum) && s[20..24] == Word(h.headerChecksum);
    WordRoundTrip(h.opCount, []);
    WordRoundTrip(h.segmentSize, []);
    LongRoundTrip(h.lsn, []);
    WordRoundTrip(h.segmentChecksum, []);
    WordRoundTrip(h.headerChecksum, []);
  }

  lemma EncodeDecode(s: seq<uint8>)
    requires |s| == HEADER_SIZE
    ensures Encode(Decode(s)) == s
  {
    hide Word, FromWord, Long, FromLong;
    WordRoundTrip(0, s[0..4]);
    WordRoundTrip(0, s[4..8]);
    LongRoundTrip(0, s[8..16]);
    WordRoundTrip(0, s[16..20]);
    WordRoundTrip(0, s[20..24]);
    assert s == s[0..4] + s[4..8] + s[8..16] + s[16..20] + s[20..24];
  }

  /** The number that four bytes stand for, lowest first. */
  function Number(s: seq<uint8>, at: nat): int
    requires at + 4 <= |s|
  {
    s[at] as int + 0x100 * s[at + 1] as int + 0x1_0000 * s[at + 2] as int + 0x100_0000 * s[at + 3] as int
  }

  lemma FourBytes(s: seq<uint8>)
    requires |s| == 4
    ensures FromLittle(s) == Number(s, 0)
  {
    assert FromLittle(s[1..][1..][1..][1..]) == 0;
    assert FromLittle(s[1..][1..][1..]) == s[3] as nat;
    assert FromLittle(s[1..][1..]) == s[2] as nat + 256 * s[3] as nat;
  }

  lemma EightBytes(s: seq<uint8>)
    requires |s| == 8
    ensures FromLittle(s) == Number(s, 0) + 0x1_0000_0000 * Number(s, 4)
  {
    var t := s[1..][1..][1..][1..];
    assert t == s[4..];
    FourBytes(t);
    assert FromLittle(s[1..][1..][1..]) == s[3] as nat + 256 * FromLittle(t);
    assert FromLittle(s[1..][1..]) == s[2] as nat + 256 * FromLittle(s[1..][1..][1..]);
  }

  /**
   Where each field of a header is: the operation count at byte 0, the segment size at 4, the LSN, in
   two's complement, at 8, the checksum of the segment at 16 and that of the header at 20.
   */
  lemma Layout(h: Header)
    ensures var s := Encode(h);
      && Number(s, 0) == h.opCount as int && Number(s, 4) == h.segmentSize as int
      && (Number(s, 8) + 0x1_0000_0000 * Number(s, 12) - h.lsn as int) % 0x1_0000_0000_0000_0000 == 0
      && Number(s, 16) == h.segmentChecksum as int && Number(s, 20) == h.headerChecksum as int
  {
    hide Little, FromLittle;
    var s := Encode(h);
    assert s[0..4] == Word(h.opCount) && s[4..8] == Word(h.segmentSize) && s[8..16] == Long(h.lsn);
    assert s[16..20] == Word(h.segmentChecksum) && s[20..24] == Word(h.headerChecksum);
    WordNumber(h.opCount);
    WordNumber(h.segmentSize);
    LongNumber(h.lsn);
    WordNumber(h.segmentChecksum);
    WordNumber(h.headerChecksum);
  }

  lemma WordNumber(x: uint32)
    ensures Number(Word(x), 0) == x as int
  {
    Powers();
    LittleRoundTrip(x as nat, 4);
    FourBytes(Word(x));
  }

  lemma LongNumber(x: int64)
    ensures (Number(Long(x), 0) + 0x1_0000_0000 * Number(Long(x), 4) - x as int) % 0x1_0000_0000_0000_0000 == 0
  {
    Powers();
    LittleRoundTrip(if x < 0 then x as int + 0x1_0000_0000_0000_0000 else x as int, 8);
    EightBytes(Long(x));
  }

  function Zeros(n: nat): (s: seq<uint8>)
    ensures |s| == n
    ensures forall i :: 0 <= i < n ==> s[i] == 0
  {
    seq(n, i => 0)
  }

  lemma {:induction false} LittleZero(n: nat)
    ensures Little(0, n) == Zeros(n)
  {
    if n > 0 {
      LittleZero(n - 1);
    }
  }

  /** Only 24 zero bytes decode to the empty header. */
  lemma EmptyIsZeros(s: seq<uint8>)
    requires |s| == HEADER_SIZE
    ensures Empty(Decode(s)) <==> s == Zeros(HEADER_SIZE)
  {
    LittleZero(4);
    LittleZero(8);
    assert Encode(BLANK) == Zeros(HEADER_SIZE);
    DecodeEncode(BLANK);
    EncodeDecode(s);
  }

  function HeaderSum(h: Header): uint32
  {
    Adler32(Encode(h.(headerChecksum := 0)))
  }

  predicate Finalized(h: Header)
  {
    h.headerChecksum == HeaderSum(h)
  }

  lemma {:induction false} SmallSum(s: seq<uint8>)
    requires |s| <= 256
    ensures 1 <= S1(s) <= 1 + 255 * |s|
  {
    if s != [] {
      SmallSum(s[..|s| - 1]);
    }
  }

  /** The checksum of a header is never zero, so no finalized header looks like the end of the file. */
  lemma FinalizedNotEmpty(h: Header)
    requires Finalized(h)
    ensures h.headerChecksum != 0 && !Empty(h)
  {
    SmallSum(Encode(h.(headerChecksum := 0)));
  }

  method Finalize(h: Header) returns (sealed: Header)
    ensures sealed == h.(headerChecksum := sealed.headerChecksum) && Finalized(sealed)
  {
    var sum := Adler(Encode(h.(headerChecksum := 0)));
    sealed := h.(headerChecksum := sum);
  }

  /** A serialized transaction on its way to the log. */
  class CommitBuffer {
    var opCount: nat
    var header: Header
    var data: seq<uint8>

    constructor (opCount: nat, data: seq<uint8>)
      ensures this.opCount == opCount && this.data == data && header == BLANK
    {
      this.opCount, this.data, header := opCount, data, BLANK;
    }

    /** Sizes and counts are stored in 32 bits. */
    method PrepareHeader()
      modifies this`header
      ensures header.segmentSize as nat == |data| % 0x1_0000_0000
      ensures header.opCount as nat == opCount % 0x1_0000_0000
      ensures header.segmentChecksum == Adler32(data)
      ensures header.lsn == old(header.lsn)
    {
      var sum := Adler(data);
      header := header.(segmentSize := (|data| % 0x1_0000_0000) as uint32,
                        opCount := (opCount % 0x1_0000_0000) as uint32,
                        segmentChecksum := sum);
    }

    method FinalizeHeader(lsn: int64)
      modifies this`header
      ensures header == old(header).(lsn := lsn, headerChecksum := header.headerChecksum) && Finalized(header)
    {
      header := Finalize(header.(lsn := lsn));
    }
  }

  // ---- records

  /** A header with the bytes behind it. */
  datatype Item = Item(header: Header, data: seq<uint8>)

  predicate TxnItem(i: Item)
  {
    && Finalized(i.header)
    && 0 < |i.data| == i.header.segmentSize as nat
    && i.header.opCount > 0 && i.header.lsn > 0
    && i.header.segmentChecksum == Adler32(i.data)
  }

  predicate PaddingItem(i: Item)
  {
    Finalized(i.header) && |i.data| == i.header.segmentSize as nat && Padding(i.header)
  }

  function ItemBytes(i: Item): (s: seq<uint8>)
    ensures |s| == HEADER_SIZE + |i.data|
  {
    Encode(i.header) + i.data
  }

  function Bytes(items: seq<Item>): seq<uint8>
    decreases |items|
  {
    if items == [] then [] else ItemBytes(items[0]) + Bytes(items[1..])
  }

  predicate WellFormed(items: seq<Item>)
  {
    forall i :: 0 <= i < |items| ==> TxnItem(items[i]) || PaddingItem(items[i])
  }

  /** The transactions among the records. */
  function Txns(items: seq<Item>): seq<Item>
    decreases |items|
  {
    if items == [] then []
    else if Padding(items[0].header) then Txns(items[1..])
    else [items[0]] + Txns(items[1..])
  }

  lemma {:induction false} BytesConcat(a: seq<Item>, b: seq<Item>)
    ensures Bytes(a + b) == Bytes(a) + Bytes(b)
    decreases |a|
  {
    if a == [] {
      assert a + b == b;
    } else {
      assert (a + b)[1..] == a[1..] + b;
      BytesConcat(a[1..], b);
    }
  }

  lemma {:induction false} TxnsConcat(a: seq<Item>, b: seq<Item>)
    ensures Txns(a + b) == Txns(a) + Txns(b)
    decreases |a|
  {
    if a == [] {
      assert a + b == b;
    } else {
      assert (a + b)[1..] == a[1..] + b;
      TxnsConcat(a[1..], b);
    }
  }
}
