/** Which log files recovery needs and which may be archived, from the names of the files alone. */
module LogSelection {
  import opened LogFormat
  import opened LogReader
  import opened GroupCommit
  import opened GroupCommitTheorems

  const MAX_LSN: nat := 0x7FFF_FFFF_FFFF_FFFF

  datatype CheckpointFileInfo = CheckpointFileInfo(lsnAtStart: nat, lsnAtEnd: nat)

  /** Where replay must begin, and how far it must get, for all these checkpoints together. */
  method GetCheckpointLsnRange(chkpts: seq<CheckpointFileInfo>) returns (first: nat, last: nat)
    requires forall i :: 0 <= i < |chkpts| ==> chkpts[i].lsnAtStart <= MAX_LSN
    ensures chkpts == [] ==> first == 0 && last == 0
    ensures forall i :: 0 <= i < |chkpts| ==> first <= chkpts[i].lsnAtStart && chkpts[i].lsnAtEnd <= last
    ensures chkpts != [] ==> exists i :: 0 <= i < |chkpts| && chkpts[i].lsnAtStart == first
    ensures chkpts != [] ==> exists i :: 0 <= i < |chkpts| && chkpts[i].lsnAtEnd == last
  {
    if |chkpts| == 0 {
      return 0, 0;
    }
    first, last := MAX_LSN, 0;
    var i := 0;
    while i < |chkpts|
      invariant 0 <= i <= |chkpts|
      invariant first <= MAX_LSN
      invariant forall j :: 0 <= j < i ==> first <= chkpts[j].lsnAtStart && chkpts[j].lsnAtEnd <= last
      invariant first == MAX_LSN || exists j :: 0 <= j < i && chkpts[j].lsnAtStart == first
      invariant last == 0 || exists j :: 0 <= j < i && chkpts[j].lsnAtEnd == last
    {
      if chkpts[i].lsnAtStart < first {
        first := chkpts[i].lsnAtStart;
      }
      if chkpts[i].lsnAtEnd > last {
        last := chkpts[i].lsnAtEnd;
      }
      i := i + 1;
    }
    assert chkpts[0].lsnAtEnd <= last && first <= chkpts[0].lsnAtStart;
  }

  /** `i` is the last file whose name is not above `lsn`, or the very first if all names are. */
  ghost predicate IsFirstNeeded(names: seq<nat>, lsn: nat, i: nat)
  {
    && (names == [] ==> i == 0)
    && (names != [] ==> i < |names| && (names[i] <= lsn || i == 0))
    && forall j :: i < j < |names| ==> lsn < names[j]
  }

  /** `get_first_needed`, over the sorted file names. */
  method GetFirstNeeded(names: seq<nat>, minChkptTxn: nat) returns (i: nat)
    requires Ascending(names)
    ensures IsFirstNeeded(names, minChkptTxn, i)
  {
    i := 0;
    while i != |names|
      invariant i <= |names|
      invariant forall j :: 0 <= j < i ==> names[j] < minChkptTxn
      decreases |names| - i
    {
      if names[i] >= minChkptTxn {
        break;
      }
      i := i + 1;
    }
    if i != 0 && (i == |names| || names[i] > minChkptTxn) {
      i := i - 1;
    }
  }

  /** `std::map::lower_bound` over the sorted names. */
  function LowerBoundIndex(names: seq<nat>, lsn: nat): (i: nat)
    ensures i <= |names|
    ensures forall j :: 0 <= j < i ==> names[j] < lsn
    ensures i < |names| ==> lsn <= names[i]
  {
    if names == [] || lsn <= names[0] then 0 else 1 + LowerBoundIndex(names[1..], lsn)
  }

  /** The file `recover` starts with: its own search ends at the same file. */
  method RecoverFrom(names: seq<nat>, startingLsn: nat) returns (i: nat)
    requires Ascending(names)
    ensures IsFirstNeeded(names, startingLsn, i)
  {
    i := LowerBoundIndex(names, startingLsn);
    if i != 0 && (i == |names| || names[i] > startingLsn) {
      i := i - 1;
    }
  }

  method GetCurrentLogs(names: seq<nat>, minChkptTxn: nat) returns (result: seq<nat>)
    requires Ascending(names)
    ensures exists first: nat :: IsFirstNeeded(names, minChkptTxn, first) && first <= |names| && result == names[first..]
  {
    var i := GetFirstNeeded(names, minChkptTxn);
    var j := i;
    result := [];
    while j != |names|
      invariant i <= j <= |names| && result == names[i..j]
      decreases |names| - j
    {
      result := result + [names[j]];
      j := j + 1;
    }
  }

  method GetArchivableLogs(names: seq<nat>, minChkptTxn: nat) returns (result: seq<nat>)
    requires Ascending(names)
    ensures exists first: nat :: IsFirstNeeded(names, minChkptTxn, first) && first <= |names| && result == names[..first]
  {
    var i := GetFirstNeeded(names, minChkptTxn);
    var j := 0;
    result := [];
    while j != i
      invariant 0 <= j <= i && result == names[..j]
      decreases i - j
    {
      result := result + [names[j]];
      j := j + 1;
    }
  }

  // ---- what the names say about the transactions in the files

  /** The transactions in file number `i`. */
  ghost function InFile(s: Log, i: nat): seq<Item>
    requires i < |s.names| && s.names[i] in s.files
  {
    ReadAll(s.files[s.names[i]]).0
  }

  lemma FileBounds(s: Log, i: nat)
    requires Inv(s) && i < |s.names|
    ensures s.names[i] in s.files && s.names[i] <= Upper(s, i) <= s.lastWrite <= |s.queued|
    ensures InFile(s, i) == s.queued[s.names[i]..Upper(s, i)]
    ensures forall k :: 0 <= k < |InFile(s, i)| ==> s.names[i] < InFile(s, i)[k].header.lsn as int <= Upper(s, i)
  {
    hide ReadAll, TxnItem, Directory, Current, Split, Served;
    ReadOneFile(s, i);
  }

  /**
   Log selection is sound: in every reachable state of the log, each written transaction above the
   checkpoints' least start is in a current file, and in no other file.
   */
  lemma NeededIsCurrent(s: Log, lsn: nat, first: nat, n: nat) returns (i: nat)
    requires Inv(s) && IsFirstNeeded(s.names, lsn, first) && lsn < n <= s.lastWrite
    ensures first <= i < |s.names| && s.names[i] in s.files
    ensures n <= |s.queued| && s.queued[n - 1] in InFile(s, i)
    ensures forall j :: 0 <= j < |s.names| && j != i ==> s.names[j] in s.files && s.queued[n - 1] !in InFile(s, j)
  {
    hide ReadAll, TxnItem, Directory, Split, Served;
    i := FileOf(s, n, |s.names| - 1);
    FileBounds(s, i);
    assert s.queued[n - 1] == InFile(s, i)[n - 1 - s.names[i]];
    if i < first {
      NamesAscend(s, i + 1, first);
    }
    forall j | 0 <= j < |s.names| && j != i
      ensures s.names[j] in s.files && s.queued[n - 1] !in InFile(s, j)
    {
      FileBounds(s, j);
      if j < i {
        NamesAscend(s, j + 1, i);
      } else {
        NamesAscend(s, i + 1, j);
      }
    }
  }

  /** An archivable file holds only transactions at or below the checkpoints' least start. */
  lemma ArchivableIsOld(s: Log, lsn: nat, first: nat, i: nat)
    requires Inv(s) && IsFirstNeeded(s.names, lsn, first) && i < first
    ensures i < |s.names| && s.names[i] in s.files
    ensures forall k :: 0 <= k < |InFile(s, i)| ==> InFile(s, i)[k].header.lsn as int <= lsn
  {
    hide ReadAll, TxnItem, Directory, Split, Served;
    FileBounds(s, i);
    NamesAscend(s, i + 1, first);
  }

  lemma NamesAscend(s: Log, i: nat, j: nat)
    requires Inv(s) && i <= j < |s.names|
    ensures s.names[i] <= s.names[j]
  {
  }

  lemma {:induction false} FileOf(s: Log, n: nat, last: nat) returns (i: nat)
    requires Inv(s) && last < |s.names| && 0 < n <= Upper(s, last)
    ensures i <= last && s.names[i] < n <= Upper(s, i)
  {
    hide Numbered, Directory, Split, Served;
    assert s.names[0] == 0;
    if s.names[last] < n {
      i := last;
    } else {
      assert Upper(s, last - 1) == s.names[last];
      i := FileOf(s, n, last - 1);
    }
  }

  /** It is tight: every current file but the last holds a transaction that is still needed. */
  lemma SelectionIsTight(s: Log, lsn: nat, first: nat, i: nat)
    requires Inv(s) && IsFirstNeeded(s.names, lsn, first) && first <= i && i + 1 < |s.names|
    ensures s.names[i] in s.files && InFile(s, i) != []
    ensures InFile(s, i)[|InFile(s, i)| - 1].header.lsn as int > lsn
  {
    hide ReadAll, TxnItem, Directory, Split, Served;
    FileBounds(s, i);
    NamesStrict(s, i);
  }

  lemma NamesStrict(s: Log, i: nat)
    requires Inv(s) && i + 1 < |s.names|
    ensures s.names[i] < s.names[i + 1]
  {
  }

  /** The names left when any of the files before number `first` have been archived. */
  ghost predicate Kept(names: seq<nat>, kept: seq<nat>, first: nat)
  {
    && Ascending(kept)
    && (forall n :: n in kept ==> n in names)
    && forall j :: first <= j < |names| ==> names[j] in kept
  }

  /** Archiving moves nothing that matters: without any of the archivable files the choice is the same. */
  lemma ArchivingKeepsStart(names: seq<nat>, kept: seq<nat>, lsn: nat, first: nat, i: nat)
    requires names != [] && Ascending(names) && IsFirstNeeded(names, lsn, first)
    requires Kept(names, kept, first) && IsFirstNeeded(kept, lsn, i)
    ensures i < |kept| && kept[i] == names[first]
  {
    assert names[first] in kept;
    var p :| 0 <= p < |kept| && kept[p] == names[first];
    assert kept[i] in names;
    var q :| 0 <= q < |names| && names[q] == kept[i];
    if names[first] <= lsn {
      assert p <= i && q <= first;
    } else {
      assert first == 0 && i == 0;
    }
  }
}
