/**
 The locking code of commits and rollbacks: the concurrent container proxies and the two loops over
 the modified containers around them.  Each lock and unlock call goes to a trace.
 */
module CommitLocks {
  import opened PicketLockSet
  import opened LockOrder

  datatype Action = Acquire(request: Request) | Release(request: Request)

  function Acquires(rs: seq<Request>): (actions: seq<Action>)
    ensures |actions| == |rs| && forall k :: 0 <= k < |rs| ==> actions[k] == Acquire(rs[k])
  {
    seq(|rs|, k requires 0 <= k < |rs| => Acquire(rs[k]))
  }

  function Releases(rs: seq<Request>): (actions: seq<Action>)
    ensures |actions| == |rs| && forall k :: 0 <= k < |rs| ==> actions[k] == Release(rs[k])
  {
    seq(|rs|, k requires 0 <= k < |rs| => Release(rs[k]))
  }

  /** A transaction with its modified containers, in set order, and the locks held in each. */
  class ContainerLocks {
    const modifiedContainers: seq<Work>
    const lockSets: seq<LockSet>
    const locksHeld: array<seq<nat>>
    var trace: seq<Action>

    ghost predicate Valid()
      reads this
    {
      && ValidWorks(modifiedContainers)
      && |lockSets| == |modifiedContainers| == locksHeld.Length
      && forall j :: 0 <= j < |lockSets| ==> lockSets[j].Valid() && lockSets[j].rowSize == modifiedContainers[j].rowSize
    }

    ghost function Counts(): set<object>
    {
      set l | l in lockSets :: l.count as object
    }

    constructor (works: seq<Work>, lockSets: seq<LockSet>)
      requires ValidWorks(works) && |lockSets| == |works|
      requires forall j :: 0 <= j < |lockSets| ==> lockSets[j].Valid() && lockSets[j].rowSize == works[j].rowSize
      ensures Valid() && trace == [] && modifiedContainers == works && this.lockSets == lockSets && fresh(locksHeld)
    {
      modifiedContainers, this.lockSets, trace := works, lockSets, [];
      locksHeld := new seq<nat>[|works|](i => []);
    }

    method LockRows(container: nat, pickets: seq<nat>)
      modifies this`trace
      ensures trace == old(trace) + Acquires(PicketRequests(container, pickets))
    {
      for i := 0 to |pickets|
        invariant trace == old(trace) + Acquires(PicketRequests(container, pickets[..i]))
      {
        trace := trace + [Acquire(Request(LockId(container, pickets[i] + 1), Plain))];
      }
      assert pickets[..|pickets|] == pickets;
    }

    method UnlockRows(container: nat, pickets: seq<nat>)
      modifies this`trace
      ensures trace == old(trace) + Releases(PicketRequests(container, pickets))
    {
      for i := 0 to |pickets|
        invariant trace == old(trace) + Releases(PicketRequests(container, pickets[..i]))
      {
        trace := trace + [Release(Request(LockId(container, pickets[i] + 1), Plain))];
      }
      assert pickets[..|pickets|] == pickets;
    }

    /** `initializeCommit` and `initializeRollback` of the container's proxy. */
    method Initialize(j: nat)
      requires Valid() && j < |modifiedContainers|
      modifies this`trace, locksHeld, lockSets[j].count
      ensures var w := modifiedContainers[j]; trace == old(trace) + Acquires([Mutex(w)] + RowLocks(w))
      ensures modifiedContainers[j].access.Rows? ==>
        locksHeld[j] == Pickets(modifiedContainers[j].access.entries, modifiedContainers[j].rowSize)
      ensures forall i :: 0 <= i < locksHeld.Length && i != j ==> locksHeld[i] == old(locksHeld[i])
    {
      hide Pickets;
      var w := modifiedContainers[j];
      ghost var before := trace;
      match w.access {
        case Whole => trace := trace + [Acquire(Request(LockId(w.container, 0), Exclusive))];
        case NoData => trace := trace + [Acquire(Request(LockId(w.container, 0), Shared))];
        case Rows(entries) =>
          var pickets := lockSets[j].Mutexes(entries);
          locksHeld[j] := pickets;
          trace := trace + [Acquire(Request(LockId(w.container, 0), Shared))];
          LockRows(w.container, pickets);
      }
      assert trace == before + Acquires([Mutex(w)] + RowLocks(w));
    }

    /** `completeCommit` and `completeRollback` of the container's proxy. */
    method Complete(j: nat)
      requires Valid() && j < |modifiedContainers|
      requires modifiedContainers[j].access.Rows? ==>
        locksHeld[j] == Pickets(modifiedContainers[j].access.entries, modifiedContainers[j].rowSize)
      modifies this`trace
      ensures var w := modifiedContainers[j]; trace == old(trace) + Releases(RowLocks(w) + [Mutex(w)])
    {
      hide Pickets;
      var w := modifiedContainers[j];
      ghost var before := trace;
      if w.access == Whole {
        trace := trace + [Release(Request(LockId(w.container, 0), Exclusive))];
      } else {
        if w.access.Rows? {
          UnlockRows(w.container, locksHeld[j]);
        }
        trace := trace + [Release(Request(LockId(w.container, 0), Shared))];
      }
      assert trace == before + Releases(RowLocks(w) + [Mutex(w)]);
    }

    /** The first loop of phase 3: all containers, front to back. */
    method AcquireAll()
      requires Valid()
      modifies this`trace, locksHeld, Counts()
      ensures trace == old(trace) + Acquires(Taken(modifiedContainers))
      ensures forall j :: 0 <= j < locksHeld.Length && modifiedContainers[j].access.Rows? ==>
        locksHeld[j] == Pickets(modifiedContainers[j].access.entries, modifiedContainers[j].rowSize)
    {
      hide Pickets, Taken, RowLocks, Mutex;
      var works := modifiedContainers;
      TakenNothing();
      var j := 0;
      while j != |works|
        invariant 0 <= j <= |works| && trace == old(trace) + Acquires(Taken(works[..j]))
        invariant forall i :: 0 <= i < j && works[i].access.Rows? ==> locksHeld[i] == Pickets(works[i].access.entries, works[i].rowSize)
        decreases |works| - j
      {
        assert lockSets[j] in lockSets;
        Initialize(j);
        assert works[..j + 1] == works[..j] + [works[j]];
        TakenMore(works[..j], works[j]);
        j := j + 1;
      }
      assert works[..j] == works;
    }

    /** The last loop: all containers, back to front. */
    method ReleaseAll()
      requires Valid()
      requires forall j :: 0 <= j < locksHeld.Length && modifiedContainers[j].access.Rows? ==>
        locksHeld[j] == Pickets(modifiedContainers[j].access.entries, modifiedContainers[j].rowSize)
      modifies this`trace
      ensures trace == old(trace) + Releases(Given(modifiedContainers))
    {
      hide Pickets, Given, RowLocks, Mutex;
      var works := modifiedContainers;
      var j := |works|;
      GivenNothing();
      assert works[j..] == [];
      while j != 0
        invariant 0 <= j <= |works| && trace == old(trace) + Releases(Given(works[j..]))
      {
        j := j - 1;
        Complete(j);
        GivenMore(works, j);
      }
      assert works[0..] == works;
    }
  }

  lemma TakenNothing()
    ensures Acquires(Taken([])) == []
  {
  }

  lemma GivenNothing()
    ensures Releases(Given([])) == []
  {
  }

  lemma {:induction false} TakenMore(works: seq<Work>, w: Work)
    requires ValidWorks(works + [w]) && ValidWorks(works) && w.rowSize > 0
    ensures Acquires(Taken(works + [w])) == Acquires(Taken(works)) + Acquires([Mutex(w)] + RowLocks(w))
    decreases |works|
  {
    hide RowLocks, Mutex;
    if works == [] {
      assert works + [w] == [w] && [w][1..] == [];
    } else {
      assert (works + [w])[1..] == works[1..] + [w];
      TakenMore(works[1..], w);
    }
  }

  lemma GivenMore(works: seq<Work>, j: nat)
    requires ValidWorks(works) && j < |works|
    ensures Releases(Given(works[j..]))
            == Releases(Given(works[j + 1..])) + Releases(RowLocks(works[j]) + [Mutex(works[j])])
  {
    hide RowLocks, Mutex;
    assert works[j..][1..] == works[j + 1..];
  }
}
