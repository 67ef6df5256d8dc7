/** Recovery over the files of any reachable log applies exactly the transactions that are missing. */
module RecoveryTheorems {
  import opened Checksum
  import opened LogFormat
  import opened LogReader
  import opened GroupCommit
  import opened GroupCommitTheorems
  import opened LogIntegrity
  import opened LogSelection
  import opened RecoveryManager

  /** LSNs follow each other from `base + 1` on. */
  ghost predicate Consecutive(items: seq<Item>, base: nat)
  {
    forall k :: 0 <= k < |items| ==> items[k].header.lsn as int == base + k + 1
  }

  /** Where no LSN is below `least`, the loop applies what the reader reads. */
  lemma {:induction false} AppliedIsReadAll(s: seq<uint8>, least: int64)
    requires forall k :: 0 <= k < |ReadAll(s).0| ==> ReadAll(s).0[k].header.lsn >= least
    requires forall k :: 0 <= k < |ReadAll(s).0| ==> ReadAll(s).0[k].header.lsn != NO_TRANSACTION
    ensures Applied(Next(s), least) == ReadAll(s)
    decreases |s|
  {
    hide Next;
    NextShrinks(s);
    var n := Next(s);
    if n.Txn? {
      var items, tail := ReadAll(s).0, ReadAll(n.rest).0;
      assert items == [n.item] + tail;
      assert items[0] == n.item && forall k :: 0 <= k < |tail| ==> tail[k] == items[k + 1];
      AppliedIsReadAll(n.rest, least);
    }
  }

  /** A file after the first one is applied as a whole, whatever its LSNs are, up to its end, its damage or an LSN of -1. */
  lemma LaterFileIsWhole(file: seq<uint8>)
    requires forall k :: 0 <= k < |ReadAll(file).0| ==> ReadAll(file).0[k].header.lsn != NO_TRANSACTION
    ensures AppliedFiles([file]) == ReadAll(file).0
  {
    hide Applied, Next, ReadAll;
    AppliedIsReadAll(file, LOWEST);
    assert [file][1..] == [] && AppliedFiles([]) == [];
  }

  function SkipCount(length: nat, base: nat, start: nat): (d: nat)
    ensures d <= length
  {
    if start <= base + 1 then 0 else if start - 1 - base < length then start - 1 - base else length
  }

  /** In a file with consecutive LSNs the search and the loop after it apply those from `start` on. */
  lemma {:induction false} FirstFileFrom(s: seq<uint8>, base: nat, start: nat, last: int64)
    requires Consecutive(ReadAll(s).0, base) && start <= MAX_LSN
    ensures var (items, end) := ReadAll(s);
      Applied(Sought(Next(s), start as int64, last).0, start as int64)
      == (items[SkipCount(|items|, base, start)..], end)
    decreases |s|
  {
    hide Next;
    NextShrinks(s);
    var n := Next(s);
    var items := ReadAll(s).0;
    if n.Txn? {
      var tail := ReadAll(n.rest).0;
      assert items == [n.item] + tail && items[0] == n.item && items[1..] == tail;
      assert forall k :: 0 <= k < |tail| ==> tail[k] == items[k + 1];
      if n.item.header.lsn as int < start {
        FirstFileFrom(n.rest, base + 1, start, n.item.header.lsn);
        var d := SkipCount(|tail|, base + 1, start);
        assert SkipCount(|items|, base, start) == d + 1;
        assert items[d + 1..] == tail[d..];
      } else {
        AppliedIsReadAll(s, start as int64);
        assert items[0..] == items;
      }
    }
  }

  lemma WholeFile(s: Log, i: nat)
    requires Inv(s) && i < |s.names|
    ensures s.names[i] in s.files && s.names[i] <= Upper(s, i) <= s.lastWrite <= |s.queued|
    ensures ReadAll(s.files[s.names[i]]) == (s.queued[s.names[i]..Upper(s, i)], End)
    ensures Consecutive(s.queued[s.names[i]..Upper(s, i)], s.names[i])
    ensures Applied(Next(s.files[s.names[i]]), LOWEST) == (s.queued[s.names[i]..Upper(s, i)], End)
  {
    hide ReadAll, Applied, Next, TxnItem, Directory, Current, Served, Split;
    ReadOneFile(s, i);
    AppliedIsReadAll(s.files[s.names[i]], LOWEST);
  }

  lemma {:induction false} LaterFiles(s: Log, i: nat)
    requires Inv(s) && i <= |s.names| && forall n :: n in s.names ==> n in s.files
    ensures i < |s.names| ==> s.names[i] <= s.lastWrite <= |s.queued|
    ensures AppliedFiles(Files(s.files, s.names[i..]))
            == if i < |s.names| then s.queued[s.names[i]..s.lastWrite] else []
    decreases |s.names| - i
  {
    hide Inv, Applied, Next, AppliedFiles, Files, ReadAll, Consecutive;
    if i == |s.names| {
      assert s.names[i..] == [];
      FilesEnd(s.files);
    } else {
      WholeFile(s, i);
      LaterFiles(s, i + 1);
      FilesStep(s.files, s.names, i);
      if i + 1 < |s.names| {
        assert s.queued[s.names[i]..Upper(s, i)] + s.queued[Upper(s, i)..s.lastWrite]
            == s.queued[s.names[i]..s.lastWrite];
      }
    }
  }

  /**
   On the files of any reachable log, recovery from `start` applies exactly the written transactions
   from LSN `start` on, in LSN order and once each; only when a file has just that name does it begin
   one later, with LSN `start + 1`.
   */
  lemma RecoveryAppliesTheRest(s: Log, start: nat, first: nat)
    requires Inv(s) && s.names != [] && IsFirstNeeded(s.names, start, first) && start <= MAX_LSN
    ensures s.lastWrite <= |s.queued| && first < |s.names| && s.names[first] <= start
    ensures forall n :: n in s.names ==> n in s.files
    ensures AppliedFrom(Files(s.files, s.names[first..]), start as int64) == Rest(s, start, first)
  {
    hide Inv, Applied, Next, Sought, AppliedFiles, Files, SkipCount;
    NamesKnown(s);
    FirstPart(s, start, first);
    LaterFiles(s, first + 1);
    FirstOfFiles(s.files, s.names, first, |s.names|);
    assert s.names[first..|s.names|] == s.names[first..] && s.names[first + 1..|s.names|] == s.names[first + 1..];
    JoinParts(s, start, first);
  }

  lemma FirstPart(s: Log, start: nat, first: nat)
    requires Inv(s) && first < |s.names| && s.names[first] <= start <= MAX_LSN
    ensures s.names[first] in s.files && s.names[first] <= Upper(s, first) <= s.lastWrite <= |s.queued|
    ensures var a, b := s.names[first], Upper(s, first);
      Applied(Sought(Next(s.files[a]), start as int64, NO_TRANSACTION).0, start as int64)
      == (s.queued[a + SkipCount(b - a, a, start)..b], End)
  {
    hide Inv, Applied, Next, Sought, ReadAll;
    var a, b := s.names[first], Upper(s, first);
    WholeFile(s, first);
    FirstFileFrom(s.files[a], a, start, NO_TRANSACTION);
    var d := SkipCount(b - a, a, start);
    assert s.queued[a..b][d..] == s.queued[a + d..b];
  }

  lemma JoinParts(s: Log, start: nat, first: nat)
    requires first < |s.names| && IsFirstNeeded(s.names, start, first) && s.names[first] <= start
    requires s.names[first] <= Upper(s, first) <= s.lastWrite <= |s.queued|
    ensures var a, b := s.names[first], Upper(s, first);
      s.queued[a + SkipCount(b - a, a, start)..b] + (if first + 1 < |s.names| then s.queued[b..s.lastWrite] else [])
      == Rest(s, start, first)
  {
    var a, b := s.names[first], Upper(s, first);
    var from := a + SkipCount(b - a, a, start);
    if first + 1 < |s.names| {
      assert s.queued[from..b] + s.queued[b..s.lastWrite] == s.queued[from..s.lastWrite];
    }
  }

  /** The written transactions from LSN `start` on, or from `start + 1` if the file is named `start`. */
  function Rest(s: Log, start: nat, first: nat): seq<Item>
    requires s.lastWrite <= |s.queued| && first < |s.names|
  {
    var from := if s.names[first] == start then start else start - 1;
    if 0 <= from <= s.lastWrite then s.queued[from..s.lastWrite] else []
  }

  // ---- files that are cut or damaged

  /** Of file number `c` the reader gives some of its transactions, and then recovery stops. */
  ghost predicate Part(s: Log, c: nat, g: seq<uint8>, later: seq<seq<uint8>>)
    requires c < |s.names|
  {
    && s.names[c] <= Upper(s, c) <= |s.queued| && ReadAll(g).0 <= s.queued[s.names[c]..Upper(s, c)]
    && (later == [] || ReadAll(g).1.Damaged?)
  }

  lemma Stops(g: seq<uint8>, later: seq<seq<uint8>>)
    requires later == [] || Applied(Next(g), LOWEST).1.Damaged?
    ensures AppliedFiles([g] + later) == Applied(Next(g), LOWEST).0
  {
    hide Applied, Next;
    assert ([g] + later)[1..] == later;
    assert AppliedFiles([]) == [];
  }

  lemma PartIsSmall(s: Log, c: nat, g: seq<uint8>, later: seq<seq<uint8>>)
    requires Inv(s) && c < |s.names| && Part(s, c, g, later)
    ensures Applied(Next(g), LOWEST) == ReadAll(g)
    ensures Consecutive(ReadAll(g).0, s.names[c])
  {
    hide ReadAll, TxnItem, Directory, Split, Served, Current, Next, Applied;
    var items := ReadAll(g).0;
    assert forall k :: 0 <= k < |items| ==> items[k] == s.queued[s.names[c] + k];
    AppliedIsReadAll(g, LOWEST);
  }

  lemma {:induction false} PartTail(s: Log, i: nat, c: nat, g: seq<uint8>, later: seq<seq<uint8>>)
    requires Inv(s) && i <= c < |s.names| && (forall m :: m in s.names ==> m in s.files) && Part(s, c, g, later)
    ensures s.names[i] <= s.lastWrite <= |s.queued|
    ensures AppliedFiles(Files(s.files, s.names[i..c]) + [g] + later) <= s.queued[s.names[i]..s.lastWrite]
    decreases c - i
  {
    hide Inv, Applied, Next, AppliedFiles, Files, ReadAll;
    WholeFile(s, i);
    if i == c {
      PartIsSmall(s, c, g, later);
      Stops(g, later);
      assert s.names[i..c] == [];
      NoFiles(s.files);
      assert [] + [g] + later == [g] + later;
      assert s.queued[s.names[i]..Upper(s, i)] <= s.queued[s.names[i]..s.lastWrite];
    } else {
      PartTail(s, i + 1, c, g, later);
      var rest := Files(s.files, s.names[i + 1..c]) + [g] + later;
      FirstOfFiles(s.files, s.names, i, c);
      assert Files(s.files, s.names[i..c]) + [g] + later == [s.files[s.names[i]]] + rest;
      MoreFiles(s.files[s.names[i]], rest);
      assert s.queued[s.names[i]..Upper(s, i)] + s.queued[Upper(s, i)..s.lastWrite]
          == s.queued[s.names[i]..s.lastWrite];
    }
  }

  /** With such a file in the place of file `c`, recovery applies a prefix of what it applies to the whole log. */
  lemma PartRecoversPrefix(s: Log, start: nat, first: nat, c: nat, g: seq<uint8>, later: seq<seq<uint8>>)
    requires Inv(s) && s.names != [] && IsFirstNeeded(s.names, start, first) && start <= MAX_LSN
    requires first <= c < |s.names| && Part(s, c, g, later)
    ensures s.lastWrite <= |s.queued| && forall m :: m in s.names ==> m in s.files
    ensures AppliedFrom(Files(s.files, s.names[first..c]) + [g] + later, start as int64) <= Rest(s, start, first)
  {
    hide Inv, Applied, Next, Sought, AppliedFiles, AppliedFrom, Files, SkipCount, Rest;
    NamesKnown(s);
    FirstPart(s, start, first);
    if first == c {
      PartFirst(s, start, first, g, later);
    } else {
      PartLater(s, start, first, c, g, later);
    }
  }

  /** The file is the one recovery starts with. */
  lemma PartFirst(s: Log, start: nat, first: nat, g: seq<uint8>, later: seq<seq<uint8>>)
    requires Inv(s) && first < |s.names| && IsFirstNeeded(s.names, start, first) && Part(s, first, g, later)
    requires s.names[first] <= start <= MAX_LSN && forall m :: m in s.names ==> m in s.files
    requires s.lastWrite <= |s.queued|
    ensures AppliedFrom(Files(s.files, s.names[first..first]) + [g] + later, start as int64) <= Rest(s, start, first)
  {
    hide Inv, Applied, Next, Sought, AppliedFiles, AppliedFrom, Files, SkipCount, ReadAll, Rest, Consecutive, IsFirstNeeded;
    var a, b := s.names[first], Upper(s, first);
    WholeFile(s, first);
    PartIsSmall(s, first, g, later);
    FirstFileFrom(g, a, start, NO_TRANSACTION);
    NoFiles(s.files);
    assert s.names[first..first] == [] && [] + [g] + later == [g] + later;
    StopsFirst(g, later, start as int64);
    JoinParts(s, start, first);
    SkipPrefix(s.queued, ReadAll(g).0, a, b, start);
  }

  lemma StopsFirst(g: seq<uint8>, later: seq<seq<uint8>>, start: int64)
    requires later == [] || Applied(Sought(Next(g), start, NO_TRANSACTION).0, start).1.Damaged?
    ensures AppliedFrom([g] + later, start) == Applied(Sought(Next(g), start, NO_TRANSACTION).0, start).0
  {
    hide Applied, Sought, Next;
    assert ([g] + later)[1..] == later;
    assert AppliedFiles([]) == [];
  }

  lemma SkipPrefix(queued: seq<Item>, items: seq<Item>, a: nat, b: nat, start: nat)
    requires a <= b <= |queued| && items <= queued[a..b]
    ensures items[SkipCount(|items|, a, start)..] <= queued[a + SkipCount(b - a, a, start)..b]
  {
    var d := SkipCount(b - a, a, start);
    if d <= |items| {
      assert items == queued[a..b][..|items|];
      assert items[d..] == queued[a + d..b][..|items| - d];
    }
  }

  /** The file comes after the one recovery starts with. */
  lemma PartLater(s: Log, start: nat, first: nat, c: nat, g: seq<uint8>, later: seq<seq<uint8>>)
    requires Inv(s) && first < c < |s.names| && IsFirstNeeded(s.names, start, first) && Part(s, c, g, later)
    requires s.names[first] <= start <= MAX_LSN && forall m :: m in s.names ==> m in s.files
    requires s.lastWrite <= |s.queued|
    ensures AppliedFrom(Files(s.files, s.names[first..c]) + [g] + later, start as int64) <= Rest(s, start, first)
  {
    hide Inv, Applied, Next, Sought, AppliedFiles, Files, SkipCount, Rest, ReadAll;
    var rest := Files(s.files, s.names[first + 1..c]) + [g] + later;
    FirstPart(s, start, first);
    PartTail(s, first + 1, c, g, later);
    FirstOfFiles(s.files, s.names, first, c);
    var files := Files(s.files, s.names[first..c]) + [g] + later;
    assert files == [s.files[s.names[first]]] + rest;
    assert files[1..] == rest;
    JoinParts(s, start, first);
  }

  /**
   Cutting the last file anywhere, as a crash may, leaves recovery from any start a prefix of what it
   applies to the whole log.
   */
  lemma CutLogRecoversPrefix(s: Log, start: nat, first: nat, n: nat)
    requires Inv(s) && s.names != [] && IsFirstNeeded(s.names, start, first) && start <= MAX_LSN
    ensures s.lastWrite <= |s.queued| && first < |s.names| && forall m :: m in s.names ==> m in s.files
    ensures var last := |s.names| - 1;
      n <= |s.files[s.names[last]]| ==>
      var files := Files(s.files, s.names[first..last]) + [s.files[s.names[last]][..n]];
      AppliedFrom(files, start as int64) <= Rest(s, start, first)
  {
    hide Inv, ReadAll, AppliedFrom, Files, Rest;
    NamesKnown(s);
    var last := |s.names| - 1;
    WholeFile(s, last);
    if n <= |s.files[s.names[last]]| {
      var g := s.files[s.names[last]][..n];
      CutFileReadsPrefix(s, last, n);
      PartRecoversPrefix(s, start, first, last, g, []);
      assert Files(s.files, s.names[first..last]) + [g] + [] == Files(s.files, s.names[first..last]) + [g];
    }
  }

  /**
   One changed byte in any file of any reachable log, in a header or in the data of a transaction: that
   file reads back as the transactions before the byte and no further, and recovery from any start
   applies a prefix of what it would have applied, whatever is in the later files.
   */
  lemma ChangedByteRecoversPrefix(s: Log, start: nat, first: nat, c: nat, k: nat, x: uint8, later: seq<seq<uint8>>)
    requires Inv(s) && s.names != [] && IsFirstNeeded(s.names, start, first) && start <= MAX_LSN
    requires first <= c < |s.names| && c < |s.placed| && Guarded(s.placed[c], k)
    ensures s.lastWrite <= |s.queued| && (forall m :: m in s.names ==> m in s.files) && k < |s.files[s.names[c]]|
    ensures x != s.files[s.names[c]][k] ==>
      var g := s.files[s.names[c]][k := x];
      && ReadAll(g) == (Txns(Within(s.placed[c], k)), Damaged)
      && AppliedFrom(Files(s.files, s.names[first..c]) + [g] + later, start as int64) <= Rest(s, start, first)
  {
    hide Inv, ReadAll, AppliedFrom, Files, Rest, Guarded, Txns, Within;
    NamesKnown(s);
    WholeFile(s, c);
    var file := s.files[s.names[c]];
    FileIs(s, c);
    GuardedIsThere(s.placed[c], k);
    if x != file[k] {
      ChangedFile(s.placed[c], |file| - |Bytes(s.placed[c])|, k, x);
      WithinIsPrefix(s.placed[c], k);
      PartRecoversPrefix(s, start, first, c, file[k := x], later);
    }
  }

  lemma FileIs(s: Log, c: nat)
    requires Inv(s) && c < |s.names| && c < |s.placed|
    ensures s.names[c] in s.files && WellFormed(s.placed[c]) && |Bytes(s.placed[c])| <= |s.files[s.names[c]]|
    ensures s.files[s.names[c]] == Bytes(s.placed[c]) + Zeros(|s.files[s.names[c]]| - |Bytes(s.placed[c])|)
    ensures s.names[c] <= Upper(s, c) <= |s.queued| && Txns(s.placed[c]) == s.queued[s.names[c]..Upper(s, c)]
  {
    hide Numbered, Served, Split, Current, Bytes, Txns, WellFormed;
    assert FileHolds(s, c);
  }

  lemma NoFiles(directory: map<nat, seq<uint8>>)
    ensures Files(directory, []) == []
  {
  }

  lemma FirstOfFiles(directory: map<nat, seq<uint8>>, names: seq<nat>, i: nat, j: nat)
    requires i < j <= |names| && forall n :: n in names ==> n in directory
    ensures Files(directory, names[i..j]) == [directory[names[i]]] + Files(directory, names[i + 1..j])
  {
    assert names[i..j][1..] == names[i + 1..j];
  }

  lemma MoreFiles(file: seq<uint8>, rest: seq<seq<uint8>>)
    requires Applied(Next(file), LOWEST).1 == End
    ensures AppliedFiles([file] + rest) == Applied(Next(file), LOWEST).0 + AppliedFiles(rest)
  {
    hide Applied, Next;
    assert ([file] + rest)[1..] == rest;
  }
}
