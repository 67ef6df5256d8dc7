/** The transactional iterator: what a forward scan shows a transaction, and that it is isolated. */
module Scan {
  import opened Ordered
  import opened Rows
  import opened RowCommit
  import opened TransMap
  import opened Transactions

  /** A row the iterator of transaction `t` stops at. */
  predicate Shown(r: Row, t: nat)
  {
    !((r.op == InsertOp && r.txnId != t) || (r.op == DeleteOp && r.txnId == t))
  }

  /** Where the code looks for a value, it finds one. */
  predicate HasPending(rows: map<Key, Row>, pending: map<Key, Value>, t: nat)
  {
    forall k :: k in rows && rows[k].op == UpdateOp && rows[k].txnId == t ==> k in pending
  }

  /** What the code shows transaction `t` at key `k`. */
  function View(rows: map<Key, Row>, pending: map<Key, Value>, t: nat, k: Key): Option<Value>
    requires HasPending(rows, pending, t)
  {
    if k !in rows || !Shown(rows[k], t) then None
    else if rows[k].op == UpdateOp && rows[k].txnId == t then Some(pending[k])
    else Some(rows[k].value)
  }

  predicate Ascending(keys: seq<Key>)
  {
    forall i, j :: 0 <= i < j < |keys| ==> keys[i] < keys[j]
  }

  /** `keys` is the map's iteration order. */
  ghost predicate InOrder(keys: seq<Key>, rows: map<Key, Row>)
  {
    Ascending(keys) && (forall k :: k in keys <==> k in rows)
  }

  /** The visible entries at positions `from` and later. */
  function Visible(keys: seq<Key>, from: nat, rows: map<Key, Row>, pending: map<Key, Value>, t: nat): seq<(Key, Value)>
    requires from <= |keys| && HasPending(rows, pending, t)
    decreases |keys| - from
  {
    if from == |keys| then []
    else
      var rest := Visible(keys, from + 1, rows, pending, t);
      var v := View(rows, pending, t, keys[from]);
      if v.Some? then [(keys[from], v.value)] + rest else rest
  }

  /** `trans_assoc_iterator` over the rows of one container, which the scan keeps locked. */
  class TransIterator {
    const rows: map<Key, Row>
    const keys: seq<Key>
    const pendingChanges: map<Key, Value>
    const locker: nat
    var currentPos: nat
    var current: Option<(Key, Value)>

    ghost predicate Valid()
      reads this
    {
      InOrder(keys, rows) && HasPending(rows, pendingChanges, locker) && currentPos <= |keys|
    }

    /** The iterator stands on a visible entry and `current` is that entry, or it is at the end. */
    ghost predicate Settled()
      reads this
    {
      && Valid()
      && (currentPos < |keys| ==>
            && View(rows, pendingChanges, locker, keys[currentPos]).Some?
            && current == Some((keys[currentPos], View(rows, pendingChanges, locker, keys[currentPos]).value)))
      && (currentPos == |keys| ==> current == None)
    }

    /** What is left to visit, this entry included. */
    ghost function Ahead(): seq<(Key, Value)>
      requires Valid()
      reads this
    {
      Visible(keys, currentPos, rows, pendingChanges, locker)
    }

    constructor (rows: map<Key, Row>, keys: seq<Key>, pending: map<Key, Value>, locker: nat)
      requires InOrder(keys, rows) && HasPending(rows, pending, locker)
      ensures this.rows == rows && this.keys == keys && pendingChanges == pending && this.locker == locker
      ensures Settled() && Ahead() == Visible(keys, 0, rows, pending, locker)
    {
      this.rows, this.keys, pendingChanges, this.locker := rows, keys, pending, locker;
      currentPos, current := 0, None;
      new;
      SkipForward();
      SetCurrent();
    }

    method SkipForward()
      requires Valid()
      modifies this`currentPos
      ensures Valid() && Ahead() == old(Ahead()) && old(currentPos) <= currentPos
      ensures currentPos < |keys| ==> keys[currentPos] in rows && Shown(rows[keys[currentPos]], locker)
      ensures old(currentPos) < |keys| && Shown(rows[keys[old(currentPos)]], locker) ==> currentPos == old(currentPos)
    {
      while currentPos < |keys| && !Shown(rows[keys[currentPos]], locker)
        invariant Valid() && Ahead() == old(Ahead()) && old(currentPos) <= currentPos
        invariant old(currentPos) < |keys| && Shown(rows[keys[old(currentPos)]], locker) ==> currentPos == old(currentPos)
      {
        currentPos := currentPos + 1;
      }
    }

    method SetCurrent()
      requires Valid() && (currentPos < |keys| ==> keys[currentPos] in rows && Shown(rows[keys[currentPos]], locker))
      modifies this`current
      ensures Settled()
    {
      if currentPos == |keys| {
        current := None;
      } else {
        var k := keys[currentPos];
        if rows[k].op == UpdateOp && rows[k].txnId == locker {
          current := Some((k, pendingChanges[k]));
        } else {
          current := Some((k, rows[k].value));
        }
      }
    }

    /** `operator++` away from the end: on to the next visible entry. */
    method Forward()
      requires Settled() && currentPos < |keys|
      modifies this
      ensures Settled() && currentPos > old(currentPos)
      ensures old(Ahead()) == [old(current).value] + Ahead()
    {
      SkipForward();
      currentPos := currentPos + 1;
      SkipForward();
      SetCurrent();
    }
  }

  /** A scan from `begin(trans)` to `end(trans)`. */
  method ScanAll(rows: map<Key, Row>, keys: seq<Key>, pending: map<Key, Value>, t: nat) returns (out: seq<(Key, Value)>)
    requires InOrder(keys, rows) && HasPending(rows, pending, t)
    ensures out == Visible(keys, 0, rows, pending, t)
  {
    var i := new TransIterator(rows, keys, pending, t);
    out := [];
    while i.currentPos != |i.keys|
      invariant fresh(i) && i.Settled()
      invariant out + i.Ahead() == Visible(keys, 0, rows, pending, t)
      decreases |i.keys| - i.currentPos
    {
      ghost var ahead := i.Ahead();
      out := out + [i.current.value];
      i.Forward();
      assert ahead == [out[|out| - 1]] + i.Ahead();
    }
  }

  /** The scan shows each key once, in order, with the value the code gives it, and no hidden key. */
  lemma {:induction false} VisibleIsView(keys: seq<Key>, from: nat, rows: map<Key, Row>, pending: map<Key, Value>, t: nat)
    requires from <= |keys| && Ascending(keys) && HasPending(rows, pending, t)
    ensures var out := Visible(keys, from, rows, pending, t);
      && (forall i, j :: 0 <= i < j < |out| ==> out[i].0 < out[j].0)
      && (forall k, v :: (k, v) in out <==> (k in keys[from..] && View(rows, pending, t, k) == Some(v)))
    decreases |keys| - from
  {
    if from < |keys| {
      VisibleIsView(keys, from + 1, rows, pending, t);
      var out, rest := Visible(keys, from, rows, pending, t), Visible(keys, from + 1, rows, pending, t);
      assert keys[from..] == [keys[from]] + keys[from + 1..];
      forall i | 0 <= i < |rest| ensures keys[from] < rest[i].0 {
        var (k, v) := rest[i];
        assert (k, v) in rest;
        assert k in keys[from + 1..];
      }
    }
  }

  // ---- isolation

  /** A row that a transaction updated, erased or locked still stores the committed value. */
  lemma {:induction false} ChainKeepsValue(t: nat, b: Option<Row>, kinds: seq<Kind>, r: Option<Row>)
    requires Chain(t, b, kinds, r) && kinds != []
    requires r.value.op in {LockOp, UpdateOp, DeleteOp}
    ensures b.Some? && b.value.value == r.value.value
    decreases |kinds|
  {
    var front, last := kinds[..|kinds| - 1], kinds[|kinds| - 1];
    if front != [] {
      ChainKeepsValue(t, b, front, Undo(last, r));
    }
  }

  function ValueOf(r: Option<Row>): Option<Value>
  {
    if r.Some? then Some(r.value.value) else None
  }

  /** The committed row overlaid with the operations transaction `t` has recorded on it. */
  ghost function Overlay(s: Db, t: nat, k: Key): Option<Value>
  {
    ValueOf(ReplayAll(LogAll(Ops(s, t, k), Get(s.rows, k)), Get(s.base, k), 0))
  }

  function PendingOf(s: Db, t: nat): map<Key, Value>
  {
    if t in s.txns then s.txns[t].pending else map[]
  }

  lemma OthersView(s: Db, t: nat, k: Key)
    requires Chained(s, k) && HasPending(s.rows, PendingOf(s, t), t) && !Owns(s, t, k)
    ensures Overlay(s, t, k) == ValueOf(Get(s.base, k))
    ensures View(s.rows, PendingOf(s, t), t, k) == Overlay(s, t, k)
            <==> !(k in s.rows && s.rows[k].op == DeletedInsertOp)
  {
    if k in s.rows && s.rows[k].op != NoOp {
      var u := s.rows[k].txnId;
      assert Owns(s, u, k);
      var kinds := Ops(s, u, k);
      if s.rows[k].op in {LockOp, UpdateOp, DeleteOp} {
        ChainKeepsValue(u, Get(s.base, k), kinds, Get(s.rows, k));
      } else {
        ShortChain(u, Get(s.base, k), kinds, Get(s.rows, k));
      }
    }
  }

  lemma OwnView(s: Db, t: nat, k: Key)
    requires Chained(s, k) && PendingAgrees(s, k) && HasPending(s.rows, PendingOf(s, t), t) && Owns(s, t, k)
    ensures View(s.rows, PendingOf(s, t), t, k) == Overlay(s, t, k)
            <==> !(k in s.rows && s.rows[k].op == DeletedInsertOp)
  {
    OneOwner(s, t, k);
    var b, kinds, r := Get(s.base, k), Ops(s, t, k), Get(s.rows, k);
    var last := kinds[|kinds| - 1];
    assert Chain(t, b, kinds, r);
    ReplayLast(kinds, r, b, 0);
    ShortChain(t, b, kinds, r);
    if last.Updated? {
      LastUpdateCounts(kinds);
    } else if last.Locked? {
      assert kinds == [last] && kinds[1..] == [];
      assert LogAll(kinds, r) == LogAll(kinds[1..], r) == [];
      assert b.value.value == r.value.value;
    } else if last.Inserted? {
      assert kinds[1..] == [];
      assert LogAll(kinds, r) == [PutNew(r.value.value)];
      assert [PutNew(r.value.value)][1..] == [];
      assert ReplayAll([PutNew(r.value.value)], b, 0) == Some(Row(r.value.value, NoOp, 0));
    }
  }

  // ---- pending updates

  lemma {:induction false} LastUpdateAppend(kinds: seq<Kind>, kind: Kind)
    ensures LastUpdate(kinds + [kind]) == if kind.Updated? then Some(kind.value) else LastUpdate(kinds)
  {
    assert (kinds + [kind])[..|kinds + [kind]| - 1] == kinds;
  }

  lemma EventKeepsPending(s: Db, e: Event, k: Key)
    requires PendingAgrees(s, k) && Enabled(s, e)
    ensures PendingAgrees(Apply(s, e), k)
  {
    hide OpsOn, CommitRows, RollbackRows, Rebase, LastUpdate;
    var s' := Apply(s, e);
    forall t | Owns(s', t, k) && LastUpdate(Ops(s', t, k)).Some?
      ensures k in s'.txns[t].pending && s'.txns[t].pending[k] == LastUpdate(Ops(s', t, k)).value
    {
      match e
      case Invoke(u, j, call) =>
        InvokeOnRow(s, u, j, call, t, k);
        var a := React(u, Get(s.rows, j), call);
        if u == t && j == k && a.recorded.Some? {
          LastUpdateAppend(Ops(s, t, k), a.recorded.value);
          if !a.recorded.value.Updated? {
            SomeUpdateMeansOwned(Ops(s, t, k));
          }
        }
      case Begin(u) => NoOps(k);
      case _ =>
        assert Ops(s', t, k) == Ops(s, t, k);
    }
  }

  lemma SomeUpdateMeansOwned(kinds: seq<Kind>)
    ensures LastUpdate(kinds).Some? ==> kinds != []
  {
  }

  lemma {:induction false} RunKeepsPending(s: Db, es: seq<Event>, k: Key)
    requires PendingAgrees(s, k) && ValidRun(s, es)
    ensures PendingAgrees(Exec(s, es), k)
    decreases |es|
  {
    hide PendingAgrees;
    if es != [] {
      EventKeepsPending(s, es[0], k);
      RunKeepsPending(Apply(s, es[0]), es[1..], k);
    }
  }

  lemma PendingIsThere(s: Db, t: nat)
    requires (forall k :: Chained(s, k)) && (forall k :: PendingAgrees(s, k))
    ensures HasPending(s.rows, PendingOf(s, t), t)
  {
    forall k | k in s.rows && s.rows[k].op == UpdateOp && s.rows[k].txnId == t ensures k in PendingOf(s, t) {
      assert Chained(s, k) && PendingAgrees(s, k);
      assert Owns(s, t, k);
      assert Chain(t, Get(s.base, k), Ops(s, t, k), Get(s.rows, k));
      LastUpdateCounts(Ops(s, t, k));
    }
  }

  /**
   Isolation of scans, exactly.  In every reachable state and at every key, what the iterator of
   transaction `t` shows is the committed row overlaid with `t`'s own operations, unless some
   transaction has erased its own pending insert of that key; then it is not.
   */
  lemma ViewIsIsolated(es: seq<Event>, t: nat, k: Key)
    requires ValidRun(Empty, es)
    ensures var s := Exec(Empty, es);
      && HasPending(s.rows, PendingOf(s, t), t)
      && (View(s.rows, PendingOf(s, t), t, k) == Overlay(s, t, k)
          <==> !(k in s.rows && s.rows[k].op == DeletedInsertOp))
  {
    RunKeepsChained(Empty, es);
    forall j ensures PendingAgrees(Exec(Empty, es), j) {
      RunKeepsPending(Empty, es, j);
    }
    var s := Exec(Empty, es);
    PendingIsThere(s, t);
    if Owns(s, t, k) {
      OwnView(s, t, k);
    } else {
      OthersView(s, t, k);
    }
  }

  /**
   A whole scan: in key order, exactly the committed rows overlaid with the transaction's own
   operations, in every reachable state without an erased pending insert.
   */
  lemma ScanIsIsolated(es: seq<Event>, t: nat, keys: seq<Key>)
    requires ValidRun(Empty, es) && InOrder(keys, Exec(Empty, es).rows)
    requires forall k :: k in Exec(Empty, es).rows ==> Exec(Empty, es).rows[k].op != DeletedInsertOp
    ensures var s := Exec(Empty, es);
      && HasPending(s.rows, PendingOf(s, t), t)
      && var out := Visible(keys, 0, s.rows, PendingOf(s, t), t);
      && (forall i, j :: 0 <= i < j < |out| ==> out[i].0 < out[j].0)
      && (forall k, v :: (k, v) in out <==> Overlay(s, t, k) == Some(v))
  {
    var s := Exec(Empty, es);
    ViewIsIsolated(es, t, 0);
    VisibleIsView(keys, 0, s.rows, PendingOf(s, t), t);
    var out := Visible(keys, 0, s.rows, PendingOf(s, t), t);
    forall k, v ensures (k, v) in out <==> Overlay(s, t, k) == Some(v) {
      ViewIsIsolated(es, t, k);
      assert keys[0..] == keys;
    }
  }

  /** A row that transaction 1 has inserted and erased again, uncommitted, is shown to transaction 2. */
  lemma ErasedInsertIsShown(k: Key, v: Value)
    ensures
      var es := [Begin(1), Invoke(1, k, Insert(v)), Invoke(1, k, Erase)];
      && ValidRun(Empty, es)
      && var s := Exec(Empty, es);
         && HasPending(s.rows, PendingOf(s, 2), 2)
         && View(s.rows, PendingOf(s, 2), 2, k) == Some(v) && Overlay(s, 2, k) == None
  {
    var es := [Begin(1), Invoke(1, k, Insert(v)), Invoke(1, k, Erase)];
    var s1 := Apply(Empty, es[0]);
    var s2 := Apply(s1, es[1]);
    var s3 := Apply(s2, es[2]);
    assert es[1..][0] == es[1] && es[1..][1..] == es[2..];
    assert es[2..][0] == es[2] && es[2..][1..] == [];
    assert Exec(s3, []) == s3 && ValidRun(s3, []);
    assert Exec(s2, es[2..]) == s3 && ValidRun(s2, es[2..]);
    assert Exec(s1, es[1..]) == s3 && ValidRun(s1, es[1..]);
    assert Get(s3.rows, k) == Some(Row(v, DeletedInsertOp, 1)) && 2 !in s3.txns;
    assert Ops(s3, 2, k) == [] && LogAll([], Get(s3.rows, k)) == [];
    assert s3.base == map[];
  }
}
