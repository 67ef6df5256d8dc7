/** Reading a log file back: what the reader makes of any bytes, and of the files the logger writes. */
module LogReader {
  import opened Checksum
  import opened LogFormat
  import opened Ordered
  import opened Os

  /** What one read gives: a transaction and the bytes after it, the end of the data, or an exception. */
  datatype Step = Txn(item: Item, rest: seq<uint8>) | End | Damaged

  /** The first 24 bytes, or fewer with zeros behind them. */
  function Front(s: seq<uint8>): (h: seq<uint8>)
    ensures |h| == HEADER_SIZE
  {
    if |s| < HEADER_SIZE then s + Zeros(HEADER_SIZE - |s|) else s[..HEADER_SIZE]
  }

  function Next(s: seq<uint8>): Step
    decreases |s|
  {
    var h := Decode(Front(s));
    if |s| < HEADER_SIZE then (if Empty(h) then End else Damaged)
    else if Empty(h) then End
    else if !Finalized(h) then Damaged
    else
      var size := h.segmentSize as nat;
      if |s| < HEADER_SIZE + size then Damaged
      else
        var data, rest := s[HEADER_SIZE..HEADER_SIZE + size], s[HEADER_SIZE + size..];
        if size > 0 && !Padding(h) && h.segmentChecksum != Adler32(data) then Damaged
        else if Padding(h) then Next(rest)
        else Txn(Item(h, data), rest)
  }

  /** All transactions up to the end of the data or the first exception. */
  function ReadAll(s: seq<uint8>): (seq<Item>, Step)
    decreases |s|
  {
    NextShrinks(s);
    var n := Next(s);
    if n.Txn? then
      var (items, last) := ReadAll(n.rest);
      ([n.item] + items, last)
    else ([], n)
  }

  /**
   The first transaction from `start` on, beginning with the step `n`, and the last LSN passed over.
   A record with the LSN -1 is taken for the end of the file.
   */
  function Sought(n: Step, start: int64, last: int64): (Step, int64)
    decreases if n.Txn? then |n.rest| + 1 else 0
  {
    if !n.Txn? then (n, last)
    else if n.item.header.lsn == NO_TRANSACTION then (End, last)
    else if n.item.header.lsn < start then
      NextShrinks(n.rest);
      Sought(Next(n.rest), start, n.item.header.lsn)
    else (n, last)
  }

  lemma {:induction false} NextShrinks(s: seq<uint8>)
    ensures Next(s).Txn? ==>
      |Next(s).rest| < |s| && |Next(s).item.data| == Next(s).item.header.segmentSize as nat
    decreases |s|
  {
    hide Decode, Front, Adler32, HeaderSum;
    var h := Decode(Front(s));
    if |s| >= HEADER_SIZE + h.segmentSize as nat {
      NextShrinks(s[HEADER_SIZE + h.segmentSize as nat..]);
    }
  }

  // ---- the reader on what the logger writes

  lemma NextItem(i: Item, rest: seq<uint8>)
    requires TxnItem(i) || PaddingItem(i)
    ensures Next(ItemBytes(i) + rest) == if Padding(i.header) then Next(rest) else Txn(i, rest)
  {
    hide Encode, Decode, Adler32, HeaderSum;
    var s := ItemBytes(i) + rest;
    assert s[..HEADER_SIZE] == Encode(i.header);
    DecodeEncode(i.header);
    FinalizedNotEmpty(i.header);
    assert s[HEADER_SIZE..HEADER_SIZE + |i.data|] == i.data;
    assert s[HEADER_SIZE + |i.data|..] == rest;
  }

  lemma NextZeros(n: nat)
    ensures Next(Zeros(n)) == End
  {
    hide Decode;
    assert Front(Zeros(n)) == Zeros(HEADER_SIZE);
    EmptyIsZeros(Front(Zeros(n)));
  }

  /** A record that is cut off ends the reading, by an exception unless what is left of it looks blank. */
  lemma NextCut(i: Item, n: nat)
    requires TxnItem(i) || PaddingItem(i)
    requires n < |ItemBytes(i)|
    ensures !Next(ItemBytes(i)[..n]).Txn?
    ensures n >= HEADER_SIZE ==> Next(ItemBytes(i)[..n]) == Damaged
  {
    hide Encode, Decode, Adler32, HeaderSum;
    var s := ItemBytes(i)[..n];
    if n >= HEADER_SIZE {
      assert s[..HEADER_SIZE] == Encode(i.header);
      DecodeEncode(i.header);
      FinalizedNotEmpty(i.header);
    }
  }

  /** Reading what has been written, with zeros behind it, gives the transactions and then the end. */
  lemma {:induction false} RoundTrip(items: seq<Item>, zeros: nat)
    requires WellFormed(items)
    ensures ReadAll(Bytes(items) + Zeros(zeros)) == (Txns(items), End)
    decreases |items|
  {
    hide Next, Encode;
    if items == [] {
      assert Bytes(items) + Zeros(zeros) == Zeros(zeros);
      NextZeros(zeros);
    } else {
      var rest := Bytes(items[1..]) + Zeros(zeros);
      assert Bytes(items) + Zeros(zeros) == ItemBytes(items[0]) + rest;
      NextItem(items[0], rest);
      RoundTrip(items[1..], zeros);
      TxnIsNotPadding(items[0]);
    }
  }

  lemma TxnIsNotPadding(i: Item)
    requires TxnItem(i) || PaddingItem(i)
    ensures TxnItem(i) <==> !Padding(i.header)
  {
  }

  /** The records that lie wholly within the first `n` bytes. */
  function Within(items: seq<Item>, n: nat): seq<Item>
    decreases |items|
  {
    if items == [] || n < |ItemBytes(items[0])| then []
    else [items[0]] + Within(items[1..], n - |ItemBytes(items[0])|)
  }

  /**
   Truncation: of a log file cut at any byte the reader gives exactly the transactions whose records
   lie wholly before the cut, and then stops.
   */
  lemma {:induction false} Truncated(items: seq<Item>, zeros: nat, n: nat)
    requires WellFormed(items) && n <= |Bytes(items)| + zeros
    ensures ReadAll((Bytes(items) + Zeros(zeros))[..n]).0 == Txns(Within(items, n))
    ensures !ReadAll((Bytes(items) + Zeros(zeros))[..n]).1.Txn?
    decreases |items|
  {
    hide Next, Encode;
    var all := Bytes(items) + Zeros(zeros);
    if items == [] {
      assert all[..n] == Zeros(n);
      NextZeros(n);
    } else {
      var first := |ItemBytes(items[0])|;
      assert all == ItemBytes(items[0]) + (Bytes(items[1..]) + Zeros(zeros));
      if n < first {
        assert all[..n] == ItemBytes(items[0])[..n];
        NextCut(items[0], n);
      } else {
        var rest := (Bytes(items[1..]) + Zeros(zeros))[..n - first];
        assert all[..n] == ItemBytes(items[0]) + rest;
        NextItem(items[0], rest);
        Truncated(items[1..], zeros, n - first);
        TxnIsNotPadding(items[0]);
        WithinStep(items, n);
      }
    }
  }

  lemma WithinStep(items: seq<Item>, n: nat)
    requires items != [] && n >= |ItemBytes(items[0])|
    ensures Txns(Within(items, n))
            == (if Padding(items[0].header) then [] else [items[0]]) + Txns(Within(items[1..], n - |ItemBytes(items[0])|))
  {
    var tail := Within(items[1..], n - |ItemBytes(items[0])|);
    assert ([items[0]] + tail)[1..] == tail;
  }

  /** What lies wholly before a cut is a prefix of what was written. */
  lemma {:induction false} WithinIsPrefix(items: seq<Item>, n: nat)
    ensures Within(items, n) <= items
    ensures Txns(Within(items, n)) <= Txns(items)
    decreases |items|
  {
    if items != [] && n >= |ItemBytes(items[0])| {
      WithinIsPrefix(items[1..], n - |ItemBytes(items[0])|);
      WithinStep(items, n);
    }
  }

  // ---- the code

  datatype ReadOutcome = Lsn(lsn: int64) | RecoverFailed | IoFailure

  class LogReader {
    const file: seq<uint8>
    const os: System
    var pos: nat
    var offset: nat
    var txnCount: nat
    var header: Header
    var buffer: seq<uint8>
    var lastTxn: int64

    constructor (file: seq<uint8>, os: System)
      ensures this.file == file && this.os == os && Valid() && Rest() == file
      ensures txnCount == 0 && lastTxn == NO_TRANSACTION && header == BLANK && buffer == []
    {
      this.file, this.os := file, os;
      pos, offset, txnCount := 0, 0, 0;
      header, buffer, lastTxn := BLANK, [], NO_TRANSACTION;
    }

    predicate Valid()
      reads this
    {
      pos <= |file|
    }

    function Rest(): seq<uint8>
      reads this
      requires Valid()
    {
      file[pos..]
    }

    /** The outcome of one read, in terms of what `Next` says about the bytes not read yet. */
    ghost predicate Took(s: Step, r: ReadOutcome, script: seq<Answer>)
      reads this
    {
      && Valid()
      && (r == IoFailure ==> Failed in script)
      && (r.Lsn? && s.Txn? ==> r.lsn == s.item.header.lsn && header == s.item.header && Rest() == s.rest
                               && (|s.item.data| > 0 ==> buffer == s.item.data))
      && (r.Lsn? && !s.Txn? ==> s == End && r.lsn == NO_TRANSACTION)
      && (r == RecoverFailed ==> s == Damaged)
    }

    /** Reads the next header; a short one has zeros at its end. */
    method ReadHeader() returns (got: Outcome<nat>)
      requires Valid()
      modifies this`pos, this`header, os
      ensures Valid()
      ensures got.IoError? ==> Failed in old(os.script)
      ensures got.Ok? ==>
        && got.value == Min(HEADER_SIZE, |old(Rest())|)
        && header == Decode(Front(old(Rest()))) && pos == old(pos) + got.value && Valid()
      ensures forall a :: a in os.script ==> a in old(os.script)
    {
      hide Decode;
      header := BLANK;
      var front := ReadFile(os, file, pos, HEADER_SIZE);
      if front.IoError? {
        return IoError;
      }
      var n := |front.value|;
      assert front.value + Zeros(HEADER_SIZE - n) == Front(Rest());
      header := Decode(front.value + Zeros(HEADER_SIZE - n));
      pos := pos + n;
      got := Ok(n);
    }

    /** Reads what follows a header and checks it; `None` if all is well. */
    method ReadSegment() returns (r: Option<ReadOutcome>)
      requires Valid()
      modifies this`pos, this`buffer, os
      ensures Valid()
      ensures r == None ==> var size := header.segmentSize as nat;
        && size <= |old(Rest())| && pos == old(pos) + size && Valid()
        && buffer == (if size > 0 then old(Rest())[..size] else old(buffer))
        && (size > 0 && !Padding(header) ==> header.segmentChecksum == Adler32(buffer))
      ensures r == Some(RecoverFailed) ==> var size := header.segmentSize as nat;
        && Valid() && size > 0
        && (size > |old(Rest())| || (!Padding(header) && header.segmentChecksum != Adler32(old(Rest())[..size])))
      ensures r == Some(IoFailure) ==> Failed in old(os.script)
      ensures r.Some? ==> r.value == RecoverFailed || r.value == IoFailure
      ensures forall a :: a in os.script ==> a in old(os.script)
    {
      hide Adler32;
      if header.segmentSize > 0 {
        var got := ReadFile(os, file, pos, header.segmentSize as nat);
        if got.IoError? {
          return Some(IoFailure);
        }
        buffer := got.value;
        pos := pos + |got.value|;
        if |got.value| != header.segmentSize as nat {
          return Some(RecoverFailed);
        }
        assert buffer == old(Rest())[..header.segmentSize as nat];
        if !Padding(header) {
          var sum := Adler(buffer);
          if header.segmentChecksum != sum {
            return Some(RecoverFailed);
          }
        }
      }
      r := None;
    }

    method ReadNextTxn() returns (r: ReadOutcome)
      requires Valid()
      modifies this, os
      ensures Took(old(Next(Rest())), r, old(os.script))
      ensures txnCount == old(txnCount) && lastTxn == old(lastTxn)
      ensures forall a :: a in os.script ==> a in old(os.script)
      decreases |file| - pos
    {
      hide Decode, Encode, Adler32, Front;
      ghost var s := Rest();
      var got := ReadHeader();
      if got.IoError? {
        return IoFailure;
      }
      if got.value < HEADER_SIZE && !Empty(header) {
        return RecoverFailed;
      }
      if Empty(header) {
        return Lsn(NO_TRANSACTION);
      }
      var stored := header.headerChecksum;
      header := Finalize(header.(headerChecksum := 0));
      if header.headerChecksum != stored {
        return RecoverFailed;
      }
      assert Rest() == s[HEADER_SIZE..];
      ghost var size := header.segmentSize as nat;
      assert HEADER_SIZE + size <= |s| ==> s[HEADER_SIZE..][..size] == s[HEADER_SIZE..HEADER_SIZE + size];
      var failure := ReadSegment();
      if failure.Some? {
        return failure.value;
      }
      offset := offset + HEADER_SIZE + header.segmentSize as nat;
      assert Rest() == s[HEADER_SIZE + header.segmentSize as nat..];
      if Padding(header) {
        r := ReadNextTxn();
        return;
      }
      r := Lsn(header.lsn);
    }

    /** `get_transaction`: the header and the data of the last transaction read. */
    method GetTransaction() returns (i: Item)
      ensures i == Item(header, if header.segmentSize as nat <= |buffer| then buffer[..header.segmentSize as nat] else buffer)
    {
      i := Item(header, if header.segmentSize as nat <= |buffer| then buffer[..header.segmentSize as nat] else buffer);
    }

    method NextTransaction() returns (r: ReadOutcome)
      requires Valid()
      modifies this, os
      ensures Took(old(Next(Rest())), r, old(os.script))
      ensures txnCount == old(txnCount) + if r.Lsn? && r.lsn != NO_TRANSACTION then 1 else 0
      ensures lastTxn == if r.Lsn? && r.lsn != NO_TRANSACTION then r.lsn else old(lastTxn)
      ensures forall a :: a in os.script ==> a in old(os.script)
    {
      r := ReadNextTxn();
      if r.Lsn? && r.lsn != NO_TRANSACTION {
        lastTxn := r.lsn;
        txnCount := txnCount + 1;
      }
    }

    /**
     The LSN of the first transaction from `startingLsn` on; at the end of the file, the last LSN
     read, or `NO_TRANSACTION` if there never was one.
     */
    method SeekTransaction(startingLsn: int64) returns (r: ReadOutcome)
      requires Valid()
      modifies this, os
      ensures var (s, last) := Sought(Next(old(Rest())), startingLsn, old(lastTxn));
        && Took(s, if r.Lsn? && !s.Txn? then Lsn(NO_TRANSACTION) else r, old(os.script))
        && (r.Lsn? && !s.Txn? ==> r.lsn == last)
      ensures forall a :: a in os.script ==> a in old(os.script)
    {
      hide Next;
      ghost var first := Next(Rest());
      ghost var n := first;
      r := ReadNextTxn();
      while r.Lsn? && r.lsn < startingLsn && r.lsn != NO_TRANSACTION
        invariant Took(n, r, old(os.script))
        invariant forall a :: a in os.script ==> a in old(os.script)
        invariant Sought(n, startingLsn, lastTxn) == Sought(first, startingLsn, old(lastTxn))
        decreases if n.Txn? then |n.rest| + 1 else 0
      {
        lastTxn := r.lsn;
        n := Next(Rest());
        NextShrinks(Rest());
        r := ReadNextTxn();
      }
      if r.Lsn? {
        if r.lsn == NO_TRANSACTION {
          return Lsn(lastTxn);
        }
        lastTxn := r.lsn;
        txnCount := txnCount + 1;
      }
    }
  }
}
