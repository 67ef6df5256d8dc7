/** Committing a chain of operations on a row against replaying what the chain wrote to the log. */
module RowCommit {
  import opened Ordered
  import opened Rows

  function FirstUpdate(kinds: seq<Kind>): Option<Value>
  {
    if kinds == [] then None
    else if kinds[0].Updated? then Some(kinds[0].value)
    else FirstUpdate(kinds[1..])
  }

  function LastUpdate(kinds: seq<Kind>): Option<Value>
  {
    if kinds == [] then None
    else if kinds[|kinds| - 1].Updated? then Some(kinds[|kinds| - 1].value)
    else LastUpdate(kinds[..|kinds| - 1])
  }

  function Deletes(kinds: seq<Kind>): nat
  {
    if kinds == [] then 0 else (if kinds[0].Deleted? then 1 else 0) + Deletes(kinds[1..])
  }

  /**
   The transaction's operations on the row commit to what they log: the row's first and last update
   agree if the row ends up updated, and the row is erased only once if it ends up erased.
   */
  predicate Tame(kinds: seq<Kind>, r: Option<Row>)
  {
    r.Some? ==>
      && (r.value.op == UpdateOp ==> FirstUpdate(kinds) == LastUpdate(kinds))
      && (r.value.op == DeleteOp ==> Deletes(kinds) == 1)
  }

  // ---- how the commits of a list act on a row, by the row's final op code

  lemma {:induction false} CommitUnlocked(kinds: seq<Kind>, r: Row, lsn: nat)
    requires r.op == NoOp
    ensures CommitAll(kinds, Some(r), lsn) == Some(r) && Safe(kinds, Some(r), lsn)
  {
    if kinds != [] {
      CommitUnlocked(kinds[1..], r, lsn);
    }
  }

  lemma {:induction false} CommitUpdated(kinds: seq<Kind>, r: Row, lsn: nat)
    requires r.op == UpdateOp
    ensures Safe(kinds, Some(r), lsn)
    ensures CommitAll(kinds, Some(r), lsn)
            == if FirstUpdate(kinds).Some? then Some(Row(FirstUpdate(kinds).value, NoOp, lsn)) else Some(r)
  {
    if kinds != [] {
      if kinds[0].Updated? {
        CommitUnlocked(kinds[1..], Row(kinds[0].value, NoOp, lsn), lsn);
      } else {
        CommitUpdated(kinds[1..], r, lsn);
      }
    }
  }

  lemma {:induction false} CommitDeleted(kinds: seq<Kind>, r: Row, lsn: nat)
    requires r.op == DeleteOp && kinds != [] && kinds[|kinds| - 1].Deleted?
    ensures Deletes(kinds) >= 1
    ensures Safe(kinds, Some(r), lsn) <==> Deletes(kinds) == 1
    ensures Deletes(kinds) == 1 ==> CommitAll(kinds, Some(r), lsn) == None
  {
    if |kinds| == 1 {
      assert kinds[1..] == [];
    } else if kinds[0].Deleted? {
      assert kinds[1..][|kinds[1..]| - 1].Deleted?;
      LastDeleteCounts(kinds[1..]);
    } else {
      CommitDeleted(kinds[1..], r, lsn);
    }
  }

  lemma {:induction false} LastDeleteCounts(kinds: seq<Kind>)
    requires kinds != [] && kinds[|kinds| - 1].Deleted?
    ensures Deletes(kinds) >= 1
  {
    if |kinds| > 1 {
      LastDeleteCounts(kinds[1..]);
    }
  }

  lemma {:induction false} LastUpdateCounts(kinds: seq<Kind>)
    requires kinds != [] && kinds[|kinds| - 1].Updated?
    ensures FirstUpdate(kinds).Some? && LastUpdate(kinds) == Some(kinds[|kinds| - 1].value)
  {
    if |kinds| > 1 {
      LastUpdateCounts(kinds[1..]);
    }
  }

  // ---- replaying the log of a list

  lemma {:induction false} ReplayConcat(a: seq<Entry>, b: seq<Entry>, r: Option<Row>, lsn: nat)
    ensures ReplayAll(a + b, r, lsn) == ReplayAll(b, ReplayAll(a, r, lsn), lsn)
  {
    if a == [] {
      assert a + b == b;
    } else {
      assert (a + b)[1..] == a[1..] + b;
      ReplayConcat(a[1..], b, Replay(a[0], r, lsn), lsn);
    }
  }

  lemma {:induction false} LogConcat(a: seq<Kind>, b: seq<Kind>, r: Option<Row>)
    ensures LogAll(a + b, r) == LogAll(a, r) + LogAll(b, r)
  {
    if a == [] {
      assert a + b == b;
    } else {
      assert (a + b)[1..] == a[1..] + b;
      LogConcat(a[1..], b, r);
    }
  }

  /** Only the last operation of a list matters to replay when it is an update or an erase. */
  lemma ReplayLast(kinds: seq<Kind>, f: Option<Row>, b: Option<Row>, lsn: nat)
    requires kinds != []
    ensures var last := kinds[|kinds| - 1];
      && (last.Updated? ==> ReplayAll(LogAll(kinds, f), b, lsn) == Some(Row(last.value, NoOp, lsn)))
      && (last.Deleted? || last.DeletedInsert? ==> ReplayAll(LogAll(kinds, f), b, lsn) == None)
  {
    var front, last := kinds[..|kinds| - 1], kinds[|kinds| - 1];
    assert kinds == front + [last];
    LogConcat(front, [last], f);
    ReplayConcat(LogAll(front, f), LogAll([last], f), b, lsn);
    assert [last][1..] == [];
    assert last.Updated? ==> LogAll([last], f) == [PutOver(last.value)];
    assert last.Deleted? || last.DeletedInsert? ==> LogAll([last], f) == [Drop];
  }

  /** A chain that ends in an insert, a lock or the erase of an insert is that short. */
  lemma ShortChain(t: nat, b: Option<Row>, kinds: seq<Kind>, r: Option<Row>)
    requires Chain(t, b, kinds, r) && kinds != []
    ensures kinds[|kinds| - 1].Inserted? ==> kinds == [Inserted] && b == None
    ensures kinds[|kinds| - 1].Locked? ==> |kinds| == 1 && b == Undo(kinds[0], r) && b.value.op == NoOp
    ensures kinds[|kinds| - 1].DeletedInsert? ==> |kinds| == 2 && kinds[0] == Inserted && b == None
  {
    var front, last := kinds[..|kinds| - 1], kinds[|kinds| - 1];
    if last.DeletedInsert? && front != [] {
      assert front[|front| - 1].Inserted?;
      assert front[..|front| - 1] == [];
    }
  }

  /**
   Memory agrees with the log, row by row: after the commit the row is what replaying the logged
   operations over the committed row gives, LSN stamp included, exactly when the chain is tame.
   */
  lemma CommitAgreesWithLog(t: nat, b: Option<Row>, kinds: seq<Kind>, r: Option<Row>, lsn: nat)
    requires Chain(t, b, kinds, r) && kinds != []
    ensures Tame(kinds, r) <==>
      Safe(kinds, r, lsn) && CommitAll(kinds, r, lsn) == ReplayAll(LogAll(kinds, r), b, lsn)
  {
    var last := kinds[|kinds| - 1];
    ShortChain(t, b, kinds, r);
    match last
    case Updated(_, _, v) =>
      CommitUpdated(kinds, r.value, lsn);
      LastUpdateCounts(kinds);
      ReplayLast(kinds, r, b, lsn);
    case Deleted(_, _) =>
      CommitDeleted(kinds, r.value, lsn);
      ReplayLast(kinds, r, b, lsn);
    case Inserted =>
      assert kinds[1..] == [];
      assert LogAll(kinds, r) == [PutNew(r.value.value)];
      assert [PutNew(r.value.value)][1..] == [];
    case Locked(_, _) =>
      assert kinds[1..] == [];
    case DeletedInsert(_, _) =>
      assert kinds[1..] == [last] && [last][1..] == [];
      assert CommitAll([last], r, lsn) == None && Safe([last], r, lsn);
      ReplayLast(kinds, r, b, lsn);
  }

  /** Two updates of one row: memory keeps the first value, the log and recovery the last. */
  lemma TwoUpdatesDiffer(v: Value, w: Value, old': Value)
    requires v != w
    ensures var b := Some(Row(old', NoOp, 1));
      var one := React(7, b, Update(v));
      var two := React(7, one.row, Update(w));
      one.recorded.Some? && two.recorded.Some? &&
      var kinds := [one.recorded.value, two.recorded.value];
      && CommitAll(kinds, two.row, 2) == Some(Row(v, NoOp, 2))
      && ReplayAll(LogAll(kinds, two.row), b, 2) == Some(Row(w, NoOp, 2))
  {
    var kinds := [Updated(1, NoOp, v), Updated(7, UpdateOp, w)];
    CommitUpdated(kinds, Row(old', UpdateOp, 7), 2);
    ReplayLast(kinds, Some(Row(old', UpdateOp, 7)), Some(Row(old', NoOp, 1)), 2);
  }

  /** Erase, re-insert and erase of a committed row: the second erase commits through an erased row. */
  lemma ErasedTwice(v: Value, w: Value, lsn: nat)
    ensures var b := Some(Row(v, NoOp, 1));
      var one := React(7, b, Erase);
      var two := React(7, one.row, Insert(w));
      var three := React(7, two.row, Erase);
      one.recorded.Some? && two.recorded.Some? && three.recorded.Some? &&
      var kinds := [one.recorded.value, two.recorded.value, three.recorded.value];
      Chain(7, b, kinds, three.row) && !Safe(kinds, three.row, lsn)
  {
    var b := Some(Row(v, NoOp, 1));
    var first, second, third := Deleted(1, NoOp), Updated(7, DeleteOp, w), Deleted(7, UpdateOp);
    var kinds := [first, second, third];
    var one, two, three := Some(Row(v, DeleteOp, 7)), Some(Row(v, UpdateOp, 7)), Row(v, DeleteOp, 7);
    CallExtendsChain(7, b, [], b, Erase);
    CallExtendsChain(7, b, [first], one, Insert(w));
    CallExtendsChain(7, b, [first, second], two, Erase);
    assert [] + [first] == [first] && [first] + [second] == [first, second] && [first, second] + [third] == kinds;
    assert kinds[1..] == [second, third] && [second, third][1..] == [third] && [third][1..] == [];
    assert Deletes([third]) == 1 && Deletes([second, third]) == 1 && Deletes(kinds) == 2;
    CommitDeleted(kinds, three, lsn);
  }
}
