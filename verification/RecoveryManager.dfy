/** The recovery loop: which transactions of which log files it applies, and in which order. */
module RecoveryManager {
  import opened Checksum
  import opened LogFormat
  import opened LogReader
  import opened Os
  import opened GroupCommit
  import opened LogSelection

  const LOWEST: int64 := -0x8000_0000_0000_0000

  // ---- the transactions the loops pass to `recover_txn`, for any files at all

  /** From the step `n` on, while the LSN is at least `least` and is not taken for the end. */
  function Applied(n: Step, least: int64): (seq<Item>, Step)
    decreases if n.Txn? then |n.rest| + 1 else 0
  {
    if n.Txn? && n.item.header.lsn >= least && n.item.header.lsn != NO_TRANSACTION then
      NextShrinks(n.rest);
      var (items, last) := Applied(Next(n.rest), least);
      ([n.item] + items, last)
    else ([], n)
  }

  /** Whole files, one after the other, up to the first exception. */
  function AppliedFiles(files: seq<seq<uint8>>): seq<Item>
    decreases |files|
  {
    if files == [] then []
    else
      var (items, last) := Applied(Next(files[0]), LOWEST);
      if last.Damaged? then items else items + AppliedFiles(files[1..])
  }

  /** The first file from `start` on, then all the others. */
  function AppliedFrom(files: seq<seq<uint8>>, start: int64): seq<Item>
    requires files != []
  {
    var (items, last) := Applied(Sought(Next(files[0]), start, NO_TRANSACTION).0, start);
    if last.Damaged? then items else items + AppliedFiles(files[1..])
  }

  // ---- the code

  datatype Recovered = Through(maxLsn: int64) | LogsRemoved

  class Manager {
    const os: System
    var applied: seq<Item>

    constructor (os: System)
      ensures this.os == os && applied == []
    {
      this.os, applied := os, [];
    }

    /** `recover_txn`, as far as which transactions it is given. */
    method RecoverTxn(i: Item)
      modifies this`applied
      ensures applied == old(applied) + [i]
    {
      applied := applied + [i];
    }

    /** Applies the transaction just read, which is that of the step `n`, and reads the next one. */
    method ApplyAndRead(reader: LogReader, ghost n: Step, read: ReadOutcome, ghost script: seq<Answer>)
      returns (next: ReadOutcome)
      requires reader.os == os && Sized(n) && reader.Took(n, read, script)
      requires read.Lsn? && read.lsn != NO_TRANSACTION
      requires forall a :: a in os.script ==> a in script
      modifies this`applied, reader, os
      ensures n.Txn? && n.item.header.lsn == read.lsn && applied == old(applied) + [n.item]
      ensures Sized(Next(n.rest)) && Size(Next(n.rest)) < Size(n)
      ensures reader.Took(Next(n.rest), next, script)
      ensures forall a :: a in os.script ==> a in script
    {
      hide Sized, Next, LogReader.Took, LogReader.Rest;
      var i := reader.GetTransaction();
      SizedItem(reader, n, read, script);
      RecoverTxn(i);
      ghost var now := os.script;
      NextAfter(reader, n, read, script);
      next := reader.NextTransaction();
      TookMore(reader, Next(n.rest), next, now, script);
    }

    /**
     Applies the transaction just read and those after it while their LSN is at least `least`.
     An exception of the reader comes out as the last outcome.
     */
    method RecoverWhile(reader: LogReader, read: ReadOutcome, least: int64, before: int64,
                        ghost n0: Step, ghost script: seq<Answer>)
      returns (last: ReadOutcome, maxLsn: int64, ghost done: seq<Item>)
      requires reader.os == os && Sized(n0) && reader.Took(n0, read, script)
      requires forall a :: a in os.script ==> a in script
      modifies this`applied, reader, os
      ensures applied == old(applied) + done
      ensures Replayed(done, last, Applied(n0, least), script)
      ensures maxLsn == MaxLsn(done, before)
      ensures !read.Lsn? ==> last == read
      ensures forall a :: a in os.script ==> a in script
    {
      hide Applied, Sized, Next, LogReader.Took, LogReader.Rest;
      last, maxLsn, done := read, before, [];
      ghost var n := n0;
      assert [] + Applied(n, least).0 == Applied(n, least).0;
      while last.Lsn? && last.lsn >= least && last.lsn != NO_TRANSACTION
        invariant Sized(n) && reader.Took(n, last, script)
        invariant forall a :: a in os.script ==> a in script
        invariant !read.Lsn? ==> last == read
        invariant applied == old(applied) + done && maxLsn == MaxLsn(done, before)
        invariant Applied(n0, least).0 == done + Applied(n, least).0
        invariant Applied(n0, least).1 == Applied(n, least).1
        decreases Size(n)
      {
        AppliedStep(n, least);
        maxLsn := last.lsn;
        last := ApplyAndRead(reader, n, last, script);
        done := done + [n.item];
        n := Next(n.rest);
      }
      StopsHere(reader, n, last, least, script);
    }

    /** A whole file after the first one. */
    method RecoverFile(file: seq<uint8>, before: int64, ghost script: seq<Answer>)
      returns (last: ReadOutcome, maxLsn: int64, ghost done: seq<Item>)
      requires forall a :: a in os.script ==> a in script
      modifies this`applied, os
      ensures applied == old(applied) + done
      ensures Replayed(done, last, Applied(Next(file), LOWEST), script)
      ensures maxLsn == MaxLsn(done, before)
      ensures forall a :: a in os.script ==> a in script
    {
      hide Next, Replayed, LogReader.Took, LogReader.Rest;
      var reader := new LogReader(file, os);
      NextIsSized(file);
      ghost var now := os.script;
      var lsn := reader.NextTransaction();
      TookMore(reader, Next(file), lsn, now, script);
      last, maxLsn, done := RecoverWhile(reader, lsn, LOWEST, before, Next(file), script);
    }

    /** The first file, from `startingLsn` on. */
    method RecoverFirst(file: seq<uint8>, startingLsn: int64, ghost script: seq<Answer>)
      returns (last: ReadOutcome, maxLsn: int64, ghost done: seq<Item>)
      requires startingLsn >= 0 && forall a :: a in os.script ==> a in script
      modifies this`applied, os
      ensures applied == old(applied) + done
      ensures Replayed(done, last, Applied(Sought(Next(file), startingLsn, NO_TRANSACTION).0, startingLsn), script)
      ensures done != [] ==> maxLsn == done[|done| - 1].header.lsn
      ensures done == [] ==> maxLsn == if last.Lsn? then Sought(Next(file), startingLsn, NO_TRANSACTION).1 else NO_TRANSACTION
      ensures forall a :: a in os.script ==> a in script
    {
      hide Next, Replayed, Applied, Sought, Sized, LogReader.Took, LogReader.Rest;
      var reader := new LogReader(file, os);
      ghost var n := Sought(Next(file), startingLsn, NO_TRANSACTION).0;
      SoughtIsSized(file, startingLsn, NO_TRANSACTION);
      ghost var now := os.script;
      var sought := reader.SeekTransaction(startingLsn);
      TookMore(reader, n, if sought.Lsn? && !n.Txn? then Lsn(NO_TRANSACTION) else sought, now, script);
      if sought.Lsn? && sought.lsn < startingLsn {
        NothingApplied(reader, n, startingLsn, sought, script);
        last, maxLsn, done := sought, sought.lsn, [];
      } else {
        last, maxLsn, done := RecoverWhile(reader, sought, startingLsn, NO_TRANSACTION, n, script);
        SomethingApplied(n, startingLsn, done, last, script);
      }
    }

    /**
     `recover`: the file search, the first file from `startingLsn` on, all later files.  With no
     log at all the answer is 0; with the needed file missing, an exception; a damaged or failing
     file ends the replay where it is.
     */
    method Recover(directory: map<nat, seq<uint8>>, names: seq<nat>, startingLsn: nat) returns (r: Recovered, first: nat)
      requires Ascending(names) && (forall n :: n in names ==> n in directory) && startingLsn <= MAX_LSN
      requires applied == []
      modifies this, os
      ensures names == [] ==> r == Through(0) && applied == []
      ensures names != [] ==> IsFirstNeeded(names, startingLsn, first) && first < |names|
      ensures r == LogsRemoved <==> names != [] && names[first] > startingLsn
      ensures r == LogsRemoved ==> applied == []
      ensures names != [] && names[first] <= startingLsn ==>
        var all := AppliedFrom(Files(directory, names[first..]), startingLsn as int64);
        applied <= all && (Failed !in old(os.script) ==> applied == all)
      ensures r.Through? && applied != [] ==> r.maxLsn == applied[|applied| - 1].header.lsn
      ensures names != [] && names[first] <= startingLsn && applied == [] ==>
        || r.maxLsn == LastBefore(directory[names[first]], startingLsn as int64)
        || (Failed in old(os.script) && r.maxLsn == NO_TRANSACTION)
    {
      hide LastBefore, Applied, Sought, Next, AppliedFiles, AppliedFrom, IsFirstNeeded, Files, Replayed;
      ghost var script := os.script;
      if |names| == 0 {
        return Through(0), 0;
      }
      first := RecoverFrom(names, startingLsn);
      FirstIsIndex(names, startingLsn, first);
      if names[first] > startingLsn {
        return LogsRemoved, first;
      }
      var last, maxLsn, done := RecoverFirst(directory[names[first]], startingLsn as int64, script);
      FirstFile(directory, names, first, startingLsn as int64, done, last, script);
      NothingFrom(directory[names[first]], startingLsn as int64, done, last, maxLsn, script);
      if !last.Lsn? {
        return Through(maxLsn), first;
      }
      maxLsn := RecoverLater(directory, names, first + 1, maxLsn, script);
      r := Through(maxLsn);
    }

    /** All files after the first one, until an exception. */
    method RecoverLater(directory: map<nat, seq<uint8>>, names: seq<nat>, from: nat, before: int64, ghost script: seq<Answer>)
      returns (maxLsn: int64)
      requires (forall n :: n in names ==> n in directory) && from <= |names|
      requires forall a :: a in os.script ==> a in script
      requires applied != [] ==> before == applied[|applied| - 1].header.lsn
      modifies this`applied, os
      ensures var all := old(applied) + AppliedFiles(Files(directory, names[from..]));
        applied <= all && (Failed !in script ==> applied == all)
      ensures old(applied) <= applied && maxLsn == if applied == [] then before else applied[|applied| - 1].header.lsn
      ensures forall a :: a in os.script ==> a in script
    {
      hide Applied, Next, AppliedFiles, Files;
      maxLsn := before;
      var i := from;
      while i != |names|
        invariant from <= i <= |names|
        invariant applied + AppliedFiles(Files(directory, names[i..]))
                  == old(applied) + AppliedFiles(Files(directory, names[from..]))
        invariant old(applied) <= applied && maxLsn == if applied == [] then before else applied[|applied| - 1].header.lsn
        invariant forall a :: a in os.script ==> a in script
        decreases |names| - i
      {
        FilesStep(directory, names, i);
        var last: ReadOutcome;
        ghost var done: seq<Item>;
        last, maxLsn, done := RecoverFile(directory[names[i]], maxLsn, script);
        if !last.Lsn? {
          return;
        }
        i := i + 1;
      }
      FilesEnd(directory);
      assert names[i..] == [];
    }
  }

  /** What a file gives as the last LSN when it has no transaction from `start` on. */
  function LastBefore(file: seq<uint8>, start: int64): int64
  {
    var (n, last) := Sought(Next(file), start, NO_TRANSACTION);
    if n.Damaged? then NO_TRANSACTION else last
  }

  lemma NothingFrom(file: seq<uint8>, start: int64, done: seq<Item>, last: ReadOutcome, maxLsn: int64, script: seq<Answer>)
    requires start >= 0
    requires Replayed(done, last, Applied(Sought(Next(file), start, NO_TRANSACTION).0, start), script)
    requires done == [] ==> maxLsn == if last.Lsn? then Sought(Next(file), start, NO_TRANSACTION).1 else NO_TRANSACTION
    ensures done == [] ==> maxLsn == LastBefore(file, start) || (Failed in script && maxLsn == NO_TRANSACTION)
  {
    hide Next, Sought, Sized;
    SoughtIsSized(file, start, NO_TRANSACTION);
    AppliedStep(Sought(Next(file), start, NO_TRANSACTION).0, start);
  }

  lemma FirstFile(directory: map<nat, seq<uint8>>, names: seq<nat>, first: nat, start: int64,
                  done: seq<Item>, last: ReadOutcome, script: seq<Answer>)
    requires (forall n :: n in names ==> n in directory) && first < |names|
    requires Replayed(done, last, Applied(Sought(Next(directory[names[first]]), start, NO_TRANSACTION).0, start), script)
    ensures var all := AppliedFrom(Files(directory, names[first..]), start);
      && done <= all
      && (last.Lsn? ==> all == done + AppliedFiles(Files(directory, names[first + 1..])))
      && (!last.Lsn? && Failed !in script ==> done == all)
  {
    hide Applied, Sought, Next, AppliedFiles;
    assert names[first..][1..] == names[first + 1..];
    var files := Files(directory, names[first..]);
    assert files[1..] == Files(directory, names[first + 1..]);
  }

  /** The contents of the named files, in order. */
  function Files(directory: map<nat, seq<uint8>>, names: seq<nat>): (files: seq<seq<uint8>>)
    requires forall n :: n in names ==> n in directory
    ensures |files| == |names|
  {
    if names == [] then [] else [directory[names[0]]] + Files(directory, names[1..])
  }

  lemma FirstIsIndex(names: seq<nat>, lsn: nat, i: nat)
    requires names != [] && IsFirstNeeded(names, lsn, i)
    ensures i < |names|
  {
  }

  lemma FilesEnd(directory: map<nat, seq<uint8>>)
    ensures AppliedFiles(Files(directory, [])) == []
  {
  }

  lemma FilesStep(directory: map<nat, seq<uint8>>, names: seq<nat>, i: nat)
    requires (forall n :: n in names ==> n in directory) && i < |names|
    ensures var (items, last) := Applied(Next(directory[names[i]]), LOWEST);
      AppliedFiles(Files(directory, names[i..]))
      == if last.Damaged? then items else items + AppliedFiles(Files(directory, names[i + 1..]))
  {
    hide Applied, Next;
    assert names[i..][1..] == names[i + 1..];
    var files := Files(directory, names[i..]);
    assert files[1..] == Files(directory, names[i + 1..]);
  }

  lemma NothingApplied(reader: LogReader, n: Step, start: int64, last: ReadOutcome, script: seq<Answer>)
    requires last.Lsn? && (n.Txn? ==> reader.Took(n, last, script) && last.lsn < start)
    requires !n.Txn? ==> reader.Took(n, Lsn(NO_TRANSACTION), script)
    requires n.Txn? ==> n.item.header.lsn >= start
    ensures !n.Txn?
    ensures Replayed([], last, Applied(n, start), script)
  {
  }

  lemma SomethingApplied(n: Step, start: int64, done: seq<Item>, last: ReadOutcome, script: seq<Answer>)
    requires Replayed(done, last, Applied(n, start), script)
    requires n.Txn? ==> n.item.header.lsn >= start && n.item.header.lsn != NO_TRANSACTION
    ensures done == [] && last.Lsn? ==> !n.Txn?
  {
    AppliedStep(n, start);
  }

  /** What was applied of the specified transactions, by the outcome the loop ended with. */
  ghost predicate Replayed(done: seq<Item>, last: ReadOutcome, all: (seq<Item>, Step), script: seq<Answer>)
  {
    && done <= all.0
    && (last.IoFailure? ==> Failed in script)
    && (!last.IoFailure? ==> done == all.0 && (last.RecoverFailed? <==> all.1.Damaged?))
  }

  function MaxLsn(done: seq<Item>, before: int64): int64
  {
    if done == [] then before else done[|done| - 1].header.lsn
  }

  function Size(n: Step): nat
  {
    if n.Txn? then |n.rest| + 1 else 0
  }

  ghost predicate Sized(n: Step)
  {
    n.Txn? ==> |n.item.data| == n.item.header.segmentSize as nat
  }

  lemma NextIsSized(s: seq<uint8>)
    ensures Sized(Next(s)) && Size(Next(s)) <= |s|
  {
    NextShrinks(s);
  }

  lemma TookMore(reader: LogReader, n: Step, r: ReadOutcome, now: seq<Answer>, script: seq<Answer>)
    requires reader.Took(n, r, now) && forall a :: a in now ==> a in script
    ensures reader.Took(n, r, script)
  {
  }

  /** The transaction at hand, as the reader gives it. */
  lemma SizedItem(reader: LogReader, n: Step, r: ReadOutcome, script: seq<Answer>)
    requires Sized(n) && reader.Took(n, r, script) && r.Lsn? && r.lsn != NO_TRANSACTION
    ensures n.Txn? && n.item.header.lsn == r.lsn
    ensures var size := reader.header.segmentSize as nat;
      n.item == Item(reader.header, if size <= |reader.buffer| then reader.buffer[..size] else reader.buffer)
  {
  }

  lemma NextAfter(reader: LogReader, n: Step, r: ReadOutcome, script: seq<Answer>)
    requires n.Txn? && r.Lsn? && reader.Took(n, r, script)
    ensures reader.Valid() && reader.Rest() == n.rest
    ensures Sized(Next(n.rest)) && Size(Next(n.rest)) < Size(n)
  {
    NextIsSized(n.rest);
  }

  lemma StopsHere(reader: LogReader, n: Step, r: ReadOutcome, least: int64, script: seq<Answer>)
    requires reader.Took(n, r, script) && !(r.Lsn? && r.lsn >= least && r.lsn != NO_TRANSACTION)
    ensures !r.IoFailure? ==> Applied(n, least).0 == [] && (r.RecoverFailed? <==> Applied(n, least).1.Damaged?)
    ensures r.IoFailure? ==> Failed in script
  {
  }

  lemma AppliedStep(n: Step, least: int64)
    ensures n.Txn? && n.item.header.lsn >= least && n.item.header.lsn != NO_TRANSACTION ==>
      Applied(n, least) == ([n.item] + Applied(Next(n.rest), least).0, Applied(Next(n.rest), least).1)
    ensures !(n.Txn? && n.item.header.lsn >= least && n.item.header.lsn != NO_TRANSACTION) ==>
      Applied(n, least) == ([], n)
  {
    hide Next;
  }

  lemma {:induction false} SoughtIsSized(s: seq<uint8>, start: int64, last: int64)
    requires last < start
    ensures Sized(Sought(Next(s), start, last).0) && Sought(Next(s), start, last).1 < start
    ensures var n := Sought(Next(s), start, last).0;
      n.Txn? ==> n.item.header.lsn >= start && n.item.header.lsn != NO_TRANSACTION
    decreases |s|
  {
    NextIsSized(s);
    hide Next;
    var n := Next(s);
    if n.Txn? && n.item.header.lsn != NO_TRANSACTION && n.item.header.lsn < start {
      SoughtIsSized(n.rest, start, n.item.header.lsn);
    }
  }
}
