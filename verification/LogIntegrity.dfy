/** What the log reader accepts of arbitrary bytes, and what it makes of a file with a damaged byte. */
module LogIntegrity {
  import opened Checksum
  import opened LogFormat
  import opened LogReader

  // ---- soundness

  /** A record as the reader demands it; the data of padding is not checked. */
  predicate Checked(i: Item)
  {
    && Finalized(i.header) && |i.data| == i.header.segmentSize as nat
    && (|i.data| > 0 && !Padding(i.header) ==> i.header.segmentChecksum == Adler32(i.data))
  }

  predicate AllChecked(records: seq<Item>)
  {
    forall k :: 0 <= k < |records| ==> Checked(records[k])
  }

  /** Nothing but zeros where the next header would be, as far as the file goes. */
  predicate AtEnd(s: seq<uint8>)
  {
    forall k :: 0 <= k < |s| && k < HEADER_SIZE ==> s[k] == 0
  }

  lemma EndIsEmpty(s: seq<uint8>)
    ensures AtEnd(s) <==> Empty(Decode(Front(s)))
  {
    hide Decode;
    EmptyIsZeros(Front(s));
    assert AtEnd(s) ==> Front(s) == Zeros(HEADER_SIZE);
    assert Front(s) == Zeros(HEADER_SIZE) ==> forall k :: 0 <= k < |s| && k < HEADER_SIZE ==> s[k] == Front(s)[k];
  }

  /** What is no transaction among the records: just those without operations, LSN and data checksum. */
  lemma {:induction false} TransactionsAre(records: seq<Item>, i: Item)
    ensures i in Txns(records) <==>
      i in records && (i.header.opCount != 0 || i.header.lsn != 0 || i.header.segmentChecksum != 0)
    decreases |records|
  {
    if records != [] {
      TransactionsAre(records[1..], i);
    }
  }

  ghost predicate BeginsWithRecord(s: seq<uint8>)
  {
    exists i :: Checked(i) && ItemBytes(i) <= s
  }

  /** The record that a header and enough bytes behind it make. */
  lemma RecordThere(s: seq<uint8>) returns (i: Item)
    requires |s| >= HEADER_SIZE && |s| >= HEADER_SIZE + Decode(s[..HEADER_SIZE]).segmentSize as nat
    ensures i.header == Decode(s[..HEADER_SIZE]) && |i.data| == i.header.segmentSize as nat
    ensures i.data == s[HEADER_SIZE..HEADER_SIZE + i.header.segmentSize as nat]
    ensures ItemBytes(i) <= s && s == ItemBytes(i) + s[|ItemBytes(i)|..]
  {
    hide Decode, Encode;
    var h := Decode(s[..HEADER_SIZE]);
    var n := HEADER_SIZE + h.segmentSize as nat;
    i := Item(h, s[HEADER_SIZE..n]);
    EncodeDecode(s[..HEADER_SIZE]);
    assert s[..n] == s[..HEADER_SIZE] + s[HEADER_SIZE..n];
  }

  /** A record at the start of the bytes is the only one there. */
  lemma RecordIs(s: seq<uint8>, i: Item)
    requires ItemBytes(i) <= s && |i.data| == i.header.segmentSize as nat
    ensures |s| >= HEADER_SIZE && Decode(s[..HEADER_SIZE]) == i.header
    ensures |s| >= HEADER_SIZE + |i.data| && s[HEADER_SIZE..HEADER_SIZE + |i.data|] == i.data
  {
    hide Decode, Encode;
    DecodeEncode(i.header);
    assert s[..|ItemBytes(i)|] == ItemBytes(i);
    assert s[..HEADER_SIZE] == Encode(i.header);
    assert s[HEADER_SIZE..HEADER_SIZE + |i.data|] == i.data;
  }

  /** One step of the reader, on any bytes: past one checked record, or to its end. */
  lemma StepIsSound(s: seq<uint8>) returns (more: bool, i: Item)
    ensures more ==>
      && Checked(i) && ItemBytes(i) <= s && s == ItemBytes(i) + s[|ItemBytes(i)|..]
      && Next(s) == if Padding(i.header) then Next(s[|ItemBytes(i)|..]) else Txn(i, s[|ItemBytes(i)|..])
    ensures !more ==>
      || (Next(s).End? && AtEnd(s))
      || (Next(s).Damaged? && !AtEnd(s) && !BeginsWithRecord(s))
  {
    hide Decode, Encode, Adler32, HeaderSum, Padding, AtEnd;
    EndIsEmpty(s);
    var h := Decode(Front(s));
    i := Item(h, []);
    forall r | Checked(r) && ItemBytes(r) <= s
      ensures |s| >= HEADER_SIZE + |r.data| && h == r.header && s[HEADER_SIZE..HEADER_SIZE + |r.data|] == r.data
    {
      RecordIs(s, r);
    }
    more := false;
    if |s| >= HEADER_SIZE && !Empty(h) && Finalized(h) && |s| >= HEADER_SIZE + h.segmentSize as nat {
      i := RecordThere(s);
      more := Checked(i);
      assert s[|ItemBytes(i)|..] == s[HEADER_SIZE + h.segmentSize as nat..];
    }
  }

  /**
   The reader is sound on arbitrary bytes.  What it gives are the transactions of a row of records at the
   start of the file, each with a header whose checksum is right, as much data as the header says and,
   unless it is padding, a data checksum that is right; and it ends with an exception exactly when what
   follows is neither the end nor one more such record.
   */
  lemma {:induction false} ReadIsSound(s: seq<uint8>) returns (records: seq<Item>)
    ensures AllChecked(records) && Bytes(records) <= s && Txns(records) == ReadAll(s).0
    ensures var rest := s[|Bytes(records)|..];
      && (ReadAll(s).1.End? <==> AtEnd(rest))
      && (ReadAll(s).1.Damaged? <==> !AtEnd(rest) && !BeginsWithRecord(rest))
    decreases |s|
  {
    hide Next, Encode, Checked, AtEnd, BeginsWithRecord, Padding;
    NextShrinks(s);
    var more, i := StepIsSound(s);
    if !more {
      records := [];
      assert s[|Bytes([])|..] == s;
    } else {
      var rest := s[|ItemBytes(i)|..];
      var tail := ReadIsSound(rest);
      records := [i] + tail;
      assert records[1..] == tail;
      assert Bytes(records) == ItemBytes(i) + Bytes(tail);
      assert s[|Bytes(records)|..] == rest[|Bytes(tail)|..];
      assert Bytes(tail) == rest[..|Bytes(tail)|];
      assert s[..|Bytes(records)|] == Bytes(records);
    }
  }

  // ---- damage

  lemma {:induction false} ZerosSum(n: nat)
    requires n < 1000
    ensures S1(Zeros(n)) == 1 && S2(Zeros(n)) == n
  {
    if n > 0 {
      assert Zeros(n)[..n - 1] == Zeros(n - 1);
      ZerosSum(n - 1);
    }
  }

  /** The header with its own checksum taken as zero: what the checksum is over. */
  lemma Unsummed(h: Header)
    ensures Encode(h.(headerChecksum := 0)) == Encode(h)[..20] + Zeros(4)
  {
    LittleZero(4);
  }

  /** The header checksum of zeros is so far from zero that no one byte makes the difference. */
  lemma NotNearlyBlank(h: Header, k: nat)
    requires Finalized(h) && k < HEADER_SIZE
    ensures exists j :: 0 <= j < HEADER_SIZE && j != k && Encode(h)[j] != 0
  {
    hide Encode, Word, Adler32;
    var s := Encode(h);
    Layout(h);
    if k < 20 {
      FinalizedNotEmpty(h);
      assert s[20] != 0 || s[21] != 0 || s[22] != 0 || s[23] != 0;
    } else if j :| 0 <= j < 20 && s[j] != 0 {
      assert s[j] != 0;
    } else {
      BlankSum(h);
      assert s[20] != 0 && s[22] != 0;
    }
  }

  /** A header that is zero but for its own checksum: the checksum is 1 + 24 * 2^16. */
  lemma BlankSum(h: Header)
    requires Finalized(h) && forall j :: 0 <= j < 20 ==> Encode(h)[j] == 0
    ensures h.headerChecksum == 0x18_0001
    ensures Encode(h)[20] == 1 && Encode(h)[22] == 24
  {
    hide Encode, S1, S2;
    Unsummed(h);
    assert Encode(h)[..20] + Zeros(4) == Zeros(24);
    ZerosSum(24);
    Layout(h);
  }

  /** A byte changed in the header of a record leaves no finalized header and no end of the file. */
  lemma HeaderByteShows(h: Header, k: nat, x: uint8)
    requires Finalized(h) && k < HEADER_SIZE && x != Encode(h)[k]
    ensures var h' := Decode(Encode(h)[k := x]); !Finalized(h') && !Empty(h')
  {
    hide Encode, Decode, Adler32;
    var s := Encode(h);
    var s' := s[k := x];
    var h' := Decode(s');
    EncodeDecode(s');
    Layout(h);
    Layout(h');
    Unsummed(h);
    Unsummed(h');
    NotNearlyBlank(h, k);
    EmptyIsZeros(s');
    var t := s[..20] + Zeros(4);
    if k < 20 {
      assert s'[..20] + Zeros(4) == t[k := x];
      OneByteShows(t, k, x);
    } else {
      assert s'[..20] == s[..20];
      NumbersDiffer(s, k, x);
    }
  }

  lemma NumbersDiffer(s: seq<uint8>, k: nat, x: uint8)
    requires |s| == HEADER_SIZE && 20 <= k < HEADER_SIZE && x != s[k]
    ensures Number(s[k := x], 20) != Number(s, 20)
  {
  }

  /**
   A record with one byte changed, anywhere in its header or in the data of a transaction, is not read:
   the reader throws.
   */
  lemma ChangedRecordIsDamaged(i: Item, k: nat, x: uint8, rest: seq<uint8>)
    requires TxnItem(i) || PaddingItem(i)
    requires k < |ItemBytes(i)| && (k < HEADER_SIZE || TxnItem(i)) && x != ItemBytes(i)[k]
    ensures Next(ItemBytes(i)[k := x] + rest) == Damaged
  {
    hide Encode, Decode, Adler32, HeaderSum;
    var s := ItemBytes(i)[k := x] + rest;
    if k < HEADER_SIZE {
      HeaderByteShows(i.header, k, x);
      assert s[..HEADER_SIZE] == Encode(i.header)[k := x];
    } else {
      assert s[..HEADER_SIZE] == Encode(i.header);
      DecodeEncode(i.header);
      FinalizedNotEmpty(i.header);
      var n := HEADER_SIZE + |i.data|;
      assert s[HEADER_SIZE..n] == i.data[k - HEADER_SIZE := x];
      OneByteShows(i.data, k - HEADER_SIZE, x);
    }
  }

  /** Byte `k` of the records is in a header or in the data of a transaction. */
  predicate Guarded(records: seq<Item>, k: nat)
  {
    if records == [] then false
    else if k < |ItemBytes(records[0])| then k < HEADER_SIZE || TxnItem(records[0])
    else Guarded(records[1..], k - |ItemBytes(records[0])|)
  }

  lemma {:induction false} GuardedIsThere(records: seq<Item>, k: nat)
    requires Guarded(records, k)
    ensures k < |Bytes(records)|
  {
    if k >= |ItemBytes(records[0])| {
      GuardedIsThere(records[1..], k - |ItemBytes(records[0])|);
    }
  }

  /**
   Damage: of a log file with one byte changed, in a header or in the data of a transaction, the reader
   gives exactly the transactions whose records lie wholly before that byte, and then throws.
   */
  lemma {:induction false} ChangedFile(records: seq<Item>, zeros: nat, k: nat, x: uint8)
    requires WellFormed(records) && Guarded(records, k) && k < |Bytes(records)| && x != Bytes(records)[k]
    ensures ReadAll((Bytes(records) + Zeros(zeros))[k := x]) == (Txns(Within(records, k)), Damaged)
    decreases |records|
  {
    hide Next, Encode;
    var all := Bytes(records) + Zeros(zeros);
    var i, n := records[0], |ItemBytes(records[0])|;
    var rest := Bytes(records[1..]) + Zeros(zeros);
    assert all == ItemBytes(i) + rest;
    if k < n {
      assert all[k := x] == ItemBytes(i)[k := x] + rest;
      ChangedRecordIsDamaged(i, k, x, rest);
    } else {
      assert Bytes(records)[k] == Bytes(records[1..])[k - n];
      GuardedIsThere(records[1..], k - n);
      assert all[k := x] == ItemBytes(i) + rest[k - n := x];
      NextItem(i, rest[k - n := x]);
      ChangedFile(records[1..], zeros, k - n, x);
      TxnIsNotPadding(i);
      WithinStep(records, k);
    }
  }

  // ---- searching

  /** The LSN of the last item, or `before` if there is none. */
  function LastLsn(items: seq<Item>, before: int64): int64
  {
    if items == [] then before else items[|items| - 1].header.lsn
  }

  lemma ReadStep(s: seq<uint8>)
    ensures var n := Next(s);
      if n.Txn? then |n.rest| < |s| && ReadAll(s) == ([n.item] + ReadAll(n.rest).0, ReadAll(n.rest).1)
      else ReadAll(s) == ([], n)
  {
    hide Next;
    NextShrinks(s);
  }

  lemma SoughtStep(n: Step, start: int64, before: int64)
    ensures Sought(n, start, before) ==
      if !n.Txn? then (n, before)
      else if n.item.header.lsn == NO_TRANSACTION then (End, before)
      else if n.item.header.lsn < start then Sought(Next(n.rest), start, n.item.header.lsn)
      else (n, before)
  {
    hide Next;
  }

  /** How far a search goes: over transactions below the start, to one that is not, or to the end. */
  ghost predicate Passes(items: seq<Item>, end: Step, start: int64, before: int64, found: (Step, int64), d: nat)
  {
    && d <= |items| && found.1 == LastLsn(items[..d], before)
    && (forall k :: 0 <= k < d ==> items[k].header.lsn < start && items[k].header.lsn != NO_TRANSACTION)
    && (d == |items| ==> found.0 == end)
    && (d < |items| && items[d].header.lsn == NO_TRANSACTION ==> found.0 == End)
    && (d < |items| && items[d].header.lsn != NO_TRANSACTION ==>
          items[d].header.lsn >= start && found.0.Txn? && found.0.item == items[d]
          && ReadAll(found.0.rest).0 == items[d + 1..])
  }

  lemma PassesOneMore(i: Item, tail: seq<Item>, end: Step, start: int64, before: int64, found: (Step, int64), d: nat)
    requires Passes(tail, end, start, i.header.lsn, found, d) && i.header.lsn < start && i.header.lsn != NO_TRANSACTION
    ensures Passes([i] + tail, end, start, before, found, d + 1)
  {
    hide ReadAll;
    var items := [i] + tail;
    assert items[..d + 1] == [i] + tail[..d];
    assert d < |tail| ==> items[d + 2..] == tail[d + 1..];
  }

  /**
   The search for an LSN, on any bytes: it passes all transactions below the start, up to the first
   from the start on, one with the LSN -1, or the end of the reading, and the LSN it reports is that of
   the last one passed.
   */
  lemma {:induction false} SearchPasses(s: seq<uint8>, start: int64, before: int64) returns (d: nat)
    ensures Passes(ReadAll(s).0, ReadAll(s).1, start, before, Sought(Next(s), start, before), d)
    decreases |s|
  {
    hide Next, ReadAll, Sought;
    ReadStep(s);
    var n := Next(s);
    SoughtStep(n, start, before);
    d := 0;
    if n.Txn? {
      var tail := ReadAll(n.rest).0;
      assert ([n.item] + tail)[1..] == tail;
      if n.item.header.lsn != NO_TRANSACTION && n.item.header.lsn < start {
        d := SearchPasses(n.rest, start, n.item.header.lsn);
        PassesOneMore(n.item, tail, ReadAll(s).1, start, before, Sought(n, start, before), d);
        d := d + 1;
      }
    }
  }
}
