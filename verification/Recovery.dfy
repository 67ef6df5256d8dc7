/**
 Recovery over a fuzzy checkpoint: the checkpoint holds each row as it was committed at some point of
 an interval, a different point for each row, and replaying the log brings them all to one point.
 */
module Recovery {
  import opened Ordered
  import opened Rows

  /** A row of the database: its container and its key there. */
  datatype Place = Place(container: nat, key: int)

  datatype Operation = OnRow(place: Place, entry: Entry) | Clear(container: nat)

  datatype LoggedTxn = LoggedTxn(lsn: nat, operations: seq<Operation>)

  type Contents = map<Place, Row>

  function At(m: Contents, p: Place): Option<Row>
  {
    if p in m then Some(m[p]) else None
  }

  /** The `recover` methods of the logged operations, on the whole database. */
  function RecoverOp(m: Contents, op: Operation, lsn: nat): Contents
  {
    match op
    case OnRow(p, e) =>
      var r := Replay(e, At(m, p), lsn);
      if r.Some? then m[p := r.value] else m - {p}
    case Clear(c) => map p | p in m && p.container != c :: m[p]
  }

  function RecoverOps(m: Contents, ops: seq<Operation>, lsn: nat): Contents
    decreases |ops|
  {
    if ops == [] then m else RecoverOps(RecoverOp(m, ops[0], lsn), ops[1..], lsn)
  }

  function RecoverLog(m: Contents, log: seq<LoggedTxn>): Contents
    decreases |log|
  {
    if log == [] then m else RecoverLog(RecoverOps(m, log[0].operations, log[0].lsn), log[1..])
  }

  // ---- one row at a time

  /** What an operation does to one row: an entry, if it touches the row; a clear drops it. */
  function EntryAt(op: Operation, p: Place): Option<Entry>
  {
    match op
    case OnRow(q, e) => if q == p then Some(e) else None
    case Clear(c) => if p.container == c then Some(Drop) else None
  }

  function RecoverRow(op: Operation, p: Place, r: Option<Row>, lsn: nat): Option<Row>
  {
    var e := EntryAt(op, p);
    if e.Some? then Replay(e.value, r, lsn) else r
  }

  function RowAfterOps(ops: seq<Operation>, p: Place, r: Option<Row>, lsn: nat): Option<Row>
    decreases |ops|
  {
    if ops == [] then r else RowAfterOps(ops[1..], p, RecoverRow(ops[0], p, r, lsn), lsn)
  }

  function RowAfterLog(log: seq<LoggedTxn>, p: Place, r: Option<Row>): Option<Row>
    decreases |log|
  {
    if log == [] then r else RowAfterLog(log[1..], p, RowAfterOps(log[0].operations, p, r, log[0].lsn))
  }

  lemma {:induction false} RecoverOpsAt(m: Contents, ops: seq<Operation>, lsn: nat, p: Place)
    ensures At(RecoverOps(m, ops, lsn), p) == RowAfterOps(ops, p, At(m, p), lsn)
    decreases |ops|
  {
    if ops != [] {
      assert At(RecoverOp(m, ops[0], lsn), p) == RecoverRow(ops[0], p, At(m, p), lsn);
      RecoverOpsAt(RecoverOp(m, ops[0], lsn), ops[1..], lsn, p);
    }
  }

  lemma {:induction false} RecoverLogAt(m: Contents, log: seq<LoggedTxn>, p: Place)
    ensures At(RecoverLog(m, log), p) == RowAfterLog(log, p, At(m, p))
    decreases |log|
  {
    if log != [] {
      RecoverOpsAt(m, log[0].operations, log[0].lsn, p);
      RecoverLogAt(RecoverOps(m, log[0].operations, log[0].lsn), log[1..], p);
    }
  }

  /** The database logs an insert only for a row that is not there. */
  ghost predicate InsertsAreNew(ops: seq<Operation>, p: Place, r: Option<Row>, lsn: nat)
    decreases |ops|
  {
    ops == [] ||
    (&& (EntryAt(ops[0], p).Some? && EntryAt(ops[0], p).value.PutNew? ==> r == None)
     && InsertsAreNew(ops[1..], p, RecoverRow(ops[0], p, r, lsn), lsn))
  }

  ghost predicate LogInsertsAreNew(log: seq<LoggedTxn>, p: Place, r: Option<Row>)
    decreases |log|
  {
    log == [] ||
    (&& InsertsAreNew(log[0].operations, p, r, log[0].lsn)
     && LogInsertsAreNew(log[1..], p, RowAfterOps(log[0].operations, p, r, log[0].lsn)))
  }

  /**
   Replaying operations over the row they produced, or over any row `x` that is one of the rows
   before and after them, gives the row they produced.
   */
  lemma {:induction false} ReplayOpsAgain(ops: seq<Operation>, p: Place, c: Option<Row>, x: Option<Row>, lsn: nat)
    requires InsertsAreNew(ops, p, c, lsn)
    ensures RowAfterOps(ops, p, x, lsn) == RowAfterOps(ops, p, c, lsn) || RowAfterOps(ops, p, x, lsn) == x
    decreases |ops|
  {
    if ops != [] {
      var c' := RecoverRow(ops[0], p, c, lsn);
      var x' := RecoverRow(ops[0], p, x, lsn);
      if x' != c' {
        ReplayOpsAgain(ops[1..], p, c', x', lsn);
      }
    }
  }

  lemma {:induction false} ReplayLogAgain(log: seq<LoggedTxn>, p: Place, c: Option<Row>, x: Option<Row>)
    requires LogInsertsAreNew(log, p, c)
    ensures RowAfterLog(log, p, x) == RowAfterLog(log, p, c) || RowAfterLog(log, p, x) == x
    decreases |log|
  {
    if log != [] {
      var c' := RowAfterOps(log[0].operations, p, c, log[0].lsn);
      var x' := RowAfterOps(log[0].operations, p, x, log[0].lsn);
      ReplayOpsAgain(log[0].operations, p, c, x, log[0].lsn);
      if x' != c' {
        ReplayLogAgain(log[1..], p, c', x');
      }
    }
  }

  lemma {:induction false} RowAfterConcat(a: seq<LoggedTxn>, b: seq<LoggedTxn>, p: Place, r: Option<Row>)
    ensures RowAfterLog(a + b, p, r) == RowAfterLog(b, p, RowAfterLog(a, p, r))
    ensures LogInsertsAreNew(a + b, p, r) ==> LogInsertsAreNew(a, p, r) && LogInsertsAreNew(b, p, RowAfterLog(a, p, r))
    decreases |a|
  {
    if a == [] {
      assert a + b == b;
    } else {
      assert (a + b)[0] == a[0] && (a + b)[1..] == a[1..] + b;
      RowAfterConcat(a[1..], b, p, RowAfterOps(a[0].operations, p, r, a[0].lsn));
    }
  }

  /** The committed contents after the first `n` logged transactions. */
  function CommittedAt(log: seq<LoggedTxn>, n: nat): Contents
    requires n <= |log|
  {
    RecoverLog(map[], log[..n])
  }

  ghost predicate ValidHistory(log: seq<LoggedTxn>)
  {
    && (forall i :: 0 <= i < |log| ==> log[i].lsn == i + 1)
    && (forall p :: LogInsertsAreNew(log, p, None))
  }

  /** The row is in the checkpoint as it was committed at some LSN from `first` to `last`. */
  ghost predicate CapturedBetween(ckpt: Contents, log: seq<LoggedTxn>, p: Place, first: nat, last: nat)
    requires first <= last <= |log|
  {
    exists n :: first <= n <= last && At(ckpt, p) == At(CommittedAt(log, n), p)
  }

  lemma ConvergeRow(ckpt: Contents, log: seq<LoggedTxn>, p: Place, first: nat, n: nat, upto: nat)
    requires ValidHistory(log) && first <= n <= upto <= |log|
    requires At(ckpt, p) == At(CommittedAt(log, n), p)
    ensures At(RecoverLog(ckpt, log[first..upto]), p) == At(CommittedAt(log, upto), p)
  {
    var x, c := At(ckpt, p), RowAfterLog(log[..first], p, None);
    var middle, rest := log[first..n], log[n..upto];
    assert log[..n] == log[..first] + middle && log[..upto] == log[..n] + rest;
    assert log[first..upto] == middle + rest;
    assert log == log[..n] + log[n..];
    RowAfterConcat(log[..n], log[n..], p, None);
    RowAfterConcat(log[..first], middle, p, None);
    RowAfterConcat(log[..n], rest, p, None);
    RowAfterConcat(middle, rest, p, x);
    RecoverLogAt(map[], log[..n], p);
    RecoverLogAt(map[], log[..upto], p);
    RecoverLogAt(ckpt, log[first..upto], p);
    ReplayLogAgain(middle, p, c, x);
  }

  /**
   Fuzzy-checkpoint convergence.  If every row of every container is in the checkpoint as it was
   committed at some LSN between `lsn_at_start` and `lsn_at_end`, then replaying the log from either
   side of `lsn_at_start` through any `upto` not before `lsn_at_end` gives the committed database at
   `upto`, values and LSN stamps.
   */
  lemma RecoveryConverges(ckpt: Contents, log: seq<LoggedTxn>, lsnAtStart: nat, lsnAtEnd: nat, upto: nat, first: nat)
    requires ValidHistory(log) && lsnAtStart <= lsnAtEnd <= upto <= |log|
    requires forall p :: CapturedBetween(ckpt, log, p, lsnAtStart, lsnAtEnd)
    requires first <= lsnAtStart
    ensures RecoverLog(ckpt, log[first..upto]) == CommittedAt(log, upto)
  {
    var a, b := RecoverLog(ckpt, log[first..upto]), CommittedAt(log, upto);
    forall p ensures At(a, p) == At(b, p) {
      assert CapturedBetween(ckpt, log, p, lsnAtStart, lsnAtEnd);
      var n :| lsnAtStart <= n <= lsnAtEnd && At(ckpt, p) == At(CommittedAt(log, n), p);
      ConvergeRow(ckpt, log, p, first, n, upto);
    }
    forall p ensures (p in a <==> p in b) && (p in a ==> a[p] == b[p]) {
      assert At(a, p) == At(b, p);
    }
  }

  // ---- values alone: the checkpoint writes rows in progress under a made-up LSN

  predicate SameValue(a: Option<Row>, b: Option<Row>)
  {
    (a.None? <==> b.None?) && (a.Some? ==> a.value.value == b.value.value)
  }

  lemma {:induction false} OpsKeepSame(ops: seq<Operation>, p: Place, a: Option<Row>, b: Option<Row>, lsn: nat)
    requires SameValue(a, b)
    ensures SameValue(RowAfterOps(ops, p, a, lsn), RowAfterOps(ops, p, b, lsn))
    decreases |ops|
  {
    if ops != [] {
      OpsKeepSame(ops[1..], p, RecoverRow(ops[0], p, a, lsn), RecoverRow(ops[0], p, b, lsn), lsn);
    }
  }

  lemma {:induction false} LogKeepsSame(log: seq<LoggedTxn>, p: Place, a: Option<Row>, b: Option<Row>)
    requires SameValue(a, b)
    ensures SameValue(RowAfterLog(log, p, a), RowAfterLog(log, p, b))
    decreases |log|
  {
    if log != [] {
      OpsKeepSame(log[0].operations, p, a, b, log[0].lsn);
      LogKeepsSame(log[1..], p, RowAfterOps(log[0].operations, p, a, log[0].lsn), RowAfterOps(log[0].operations, p, b, log[0].lsn));
    }
  }

  /** Recovery brings every row to its committed value even if the checkpoint has only its value right. */
  lemma ValuesConverge(ckpt: Contents, log: seq<LoggedTxn>, p: Place, first: nat, n: nat, upto: nat)
    requires ValidHistory(log) && first <= n <= upto <= |log|
    requires SameValue(At(ckpt, p), At(CommittedAt(log, n), p))
    ensures SameValue(At(RecoverLog(ckpt, log[first..upto]), p), At(CommittedAt(log, upto), p))
  {
    var exact := if p in CommittedAt(log, n) then map[p := CommittedAt(log, n)[p]] else map[];
    ConvergeRow(exact, log, p, first, n, upto);
    RecoverLogAt(ckpt, log[first..upto], p);
    RecoverLogAt(exact, log[first..upto], p);
    LogKeepsSame(log[first..upto], p, At(ckpt, p), At(exact, p));
  }

  /** A row captured before the point where replay starts can be lost: replay never sees its last update. */
  lemma CapturedTooEarly(p: Place, v: Value)
    ensures
      var log := [LoggedTxn(1, [OnRow(p, PutNew(v))]), LoggedTxn(2, [])];
      && ValidHistory(log)
      && At(map[], p) == At(CommittedAt(log, 0), p)
      && RecoverLog(map[], log[1..]) != CommittedAt(log, 2)
  {
    var log := [LoggedTxn(1, [OnRow(p, PutNew(v))]), LoggedTxn(2, [])];
    assert log[1..] == [log[1]] && log[1..][1..] == [];
    assert log[..2] == log;
    forall q ensures LogInsertsAreNew(log, q, None) {
      assert log[0].operations[1..] == [];
    }
    var row := Some(Row(v, NoOp, 1));
    assert log[0].operations[1..] == [];
    assert RowAfterOps(log[0].operations, p, None, 1) == RowAfterOps([], p, row, 1);
    assert log[1..] == [log[1]] && [log[1]][1..] == [];
    RecoverLogAt(map[], log, p);
    RecoverLogAt(map[], [log[1]], p);
    assert At(RecoverLog(map[], log), p) == RowAfterLog([log[1]], p, row) == row;
  }

  // ---- clearing a container

  /** The container that an operation is about. */
  function ContainerOf(op: Operation): nat
  {
    match op
    case OnRow(p, _) => p.container
    case Clear(c) => c
  }

  ghost predicate Untouched(log: seq<LoggedTxn>, c: nat)
  {
    forall i, j :: 0 <= i < |log| && 0 <= j < |log[i].operations| ==> ContainerOf(log[i].operations[j]) != c
  }

  lemma {:induction false} OpsConcat(a: seq<Operation>, b: seq<Operation>, p: Place, r: Option<Row>, lsn: nat)
    ensures RowAfterOps(a + b, p, r, lsn) == RowAfterOps(b, p, RowAfterOps(a, p, r, lsn), lsn)
    decreases |a|
  {
    if a == [] {
      assert a + b == b;
    } else {
      assert (a + b)[0] == a[0] && (a + b)[1..] == a[1..] + b;
      OpsConcat(a[1..], b, p, RecoverRow(a[0], p, r, lsn), lsn);
    }
  }

  lemma {:induction false} UntouchedOps(ops: seq<Operation>, p: Place, r: Option<Row>, lsn: nat)
    requires forall j :: 0 <= j < |ops| ==> ContainerOf(ops[j]) != p.container
    ensures RowAfterOps(ops, p, r, lsn) == r
    decreases |ops|
  {
    if ops != [] {
      assert ContainerOf(ops[0]) != p.container;
      UntouchedOps(ops[1..], p, r, lsn);
    }
  }

  lemma {:induction false} UntouchedRow(log: seq<LoggedTxn>, p: Place, r: Option<Row>)
    requires Untouched(log, p.container)
    ensures RowAfterLog(log, p, r) == r
    decreases |log|
  {
    if log != [] {
      UntouchedOps(log[0].operations, p, r, log[0].lsn);
      UntouchedRow(log[1..], p, r);
    }
  }

  /** The part of the log that follows operation number `j` of its transaction number `i`. */
  function RestOfLog(log: seq<LoggedTxn>, i: nat, j: nat): seq<LoggedTxn>
    requires i < |log| && j < |log[i].operations|
  {
    [LoggedTxn(log[i].lsn, log[i].operations[j + 1..])] + log[i + 1..]
  }

  /**
   A logged clear empties its container, whatever was there and wherever in the log it is: what follows
   it acts on the container as on an empty one.  So if nothing that follows is about the container,
   recovery leaves no row of it.
   */
  lemma ClearStartsOver(m: Contents, log: seq<LoggedTxn>, i: nat, j: nat, p: Place)
    requires i < |log| && j < |log[i].operations| && log[i].operations[j] == Clear(p.container)
    ensures At(RecoverLog(m, log), p) == At(RecoverLog(map[], RestOfLog(log, i, j)), p)
    ensures Untouched(RestOfLog(log, i, j), p.container) ==> p !in RecoverLog(m, log)
  {
    var ops, lsn, rest := log[i].operations, log[i].lsn, RestOfLog(log, i, j);
    var before := RowAfterLog(log[..i], p, At(m, p));
    assert log == log[..i] + log[i..] && log[i..][1..] == log[i + 1..];
    assert ops == ops[..j] + ops[j..] && ops[j..][1..] == ops[j + 1..];
    RecoverLogAt(m, log, p);
    RecoverLogAt(map[], rest, p);
    RowAfterConcat(log[..i], log[i..], p, At(m, p));
    OpsConcat(ops[..j], ops[j..], p, before, lsn);
    assert RowAfterOps(ops, p, before, lsn) == RowAfterOps(ops[j + 1..], p, None, lsn);
    assert rest[1..] == log[i + 1..];
    if Untouched(rest, p.container) {
      UntouchedRow(rest, p, None);
    }
  }

  /** The operations that are not about container `d`. */
  function OpsWithout(ops: seq<Operation>, d: nat): (kept: seq<Operation>)
    ensures forall op :: op in kept <==> op in ops && ContainerOf(op) != d
  {
    if ops == [] then []
    else if ContainerOf(ops[0]) == d then OpsWithout(ops[1..], d)
    else [ops[0]] + OpsWithout(ops[1..], d)
  }

  function LogWithout(log: seq<LoggedTxn>, d: nat): (kept: seq<LoggedTxn>)
    ensures |kept| == |log|
    ensures forall i :: 0 <= i < |log| ==> kept[i] == LoggedTxn(log[i].lsn, OpsWithout(log[i].operations, d))
  {
    if log == [] then []
    else [LoggedTxn(log[0].lsn, OpsWithout(log[0].operations, d))] + LogWithout(log[1..], d)
  }

  lemma {:induction false} WithoutOps(ops: seq<Operation>, d: nat, p: Place, r: Option<Row>, lsn: nat)
    requires p.container != d
    ensures RowAfterOps(OpsWithout(ops, d), p, r, lsn) == RowAfterOps(ops, p, r, lsn)
    decreases |ops|
  {
    if ops != [] {
      WithoutOps(ops[1..], d, p, RecoverRow(ops[0], p, r, lsn), lsn);
      if ContainerOf(ops[0]) != d {
        assert OpsWithout(ops, d)[1..] == OpsWithout(ops[1..], d);
      }
    }
  }

  lemma {:induction false} WithoutLog(log: seq<LoggedTxn>, d: nat, p: Place, r: Option<Row>)
    requires p.container != d
    ensures RowAfterLog(LogWithout(log, d), p, r) == RowAfterLog(log, p, r)
    decreases |log|
  {
    if log != [] {
      WithoutOps(log[0].operations, d, p, r, log[0].lsn);
      WithoutLog(log[1..], d, p, RowAfterOps(log[0].operations, p, r, log[0].lsn));
      assert LogWithout(log, d)[1..] == LogWithout(log[1..], d);
    }
  }

  /**
   Containers are recovered independently: with every operation on container `d`, clears included,
   taken out of the log, and whatever the checkpoint has for `d`, all other rows come out the same.
   */
  lemma OtherContainersStay(m: Contents, n: Contents, log: seq<LoggedTxn>, d: nat, p: Place)
    requires p.container != d && At(m, p) == At(n, p)
    ensures At(RecoverLog(m, log), p) == At(RecoverLog(n, LogWithout(log, d)), p)
  {
    RecoverLogAt(m, log, p);
    RecoverLogAt(n, LogWithout(log, d), p);
    WithoutLog(log, d, p, At(m, p));
  }

  // ---- records of one row

  /** The only operations about the row are insert records. */
  ghost predicate OnlyInserts(ops: seq<Operation>, p: Place)
  {
    forall j :: 0 <= j < |ops| ==>
      match ops[j]
      case OnRow(q, e) => q == p ==> e.PutNew?
      case Clear(c) => c != p.container
  }

  lemma {:induction false} InsertOpsKeepPresent(ops: seq<Operation>, p: Place, r: Row, lsn: nat)
    requires OnlyInserts(ops, p)
    ensures RowAfterOps(ops, p, Some(r), lsn) == Some(r)
    decreases |ops|
  {
    if ops != [] {
      InsertOpsKeepPresent(ops[1..], p, r, lsn);
    }
  }

  /**
   An insert record is for a row that is not there: a row that is there, its value and its LSN, is left
   alone by any number of them.
   */
  lemma {:induction false} InsertsKeepPresent(m: Contents, log: seq<LoggedTxn>, p: Place)
    requires p in m && forall i :: 0 <= i < |log| ==> OnlyInserts(log[i].operations, p)
    ensures At(RecoverLog(m, log), p) == Some(m[p])
    decreases |log|
  {
    if log != [] {
      var m' := RecoverOps(m, log[0].operations, log[0].lsn);
      InsertOpsKeepPresent(log[0].operations, p, m[p], log[0].lsn);
      RecoverOpsAt(m, log[0].operations, log[0].lsn, p);
      InsertsKeepPresent(m', log[1..], p);
    }
  }

  /** What the last record of a log does, by its kind, to the row that the log before it gives. */
  lemma LastRecordDecides(m: Contents, log: seq<LoggedTxn>, last: LoggedTxn, p: Place, e: Entry)
    requires last.operations == [OnRow(p, e)]
    ensures At(RecoverLog(m, log + [last]), p)
            == match e
               case PutNew(v) => if p in RecoverLog(m, log) then At(RecoverLog(m, log), p) else Some(Row(v, NoOp, last.lsn))
               case PutOver(v) => Some(Row(v, NoOp, last.lsn))
               case Drop => None
  {
    RecoverLogAt(m, log, p);
    RecoverLogAt(m, log + [last], p);
    RowAfterConcat(log, [last], p, At(m, p));
    var r := RowAfterLog(log, p, At(m, p));
    assert last.operations[1..] == [] && [last][1..] == [];
    assert RowAfterOps(last.operations, p, r, last.lsn) == RowAfterOps([], p, Replay(e, r, last.lsn), last.lsn);
  }
}
