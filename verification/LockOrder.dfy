/**
 The locks of concurrent commits and rollbacks: containers in set order, in each the container's
 mutex, then its picket locks.  Any number of transactions take and give back locks step by step.
 */
module LockOrder {
  import opened Ordered
  import opened PicketLockSet

  const SLOTS: nat := NUM_LOCKS + 1

  /** How a transaction enters a container: without changes there, exclusively, or for certain rows. */
  datatype Access = NoData | Whole | Rows(entries: seq<nat>)
  datatype Work = Work(container: nat, rowSize: nat, access: Access)

  /** The container's mutex is shared or exclusive; picket locks are plain mutexes. */
  datatype Mode = Shared | Exclusive | Plain
  datatype Request = Request(lock: nat, mode: Mode)

  /** Slot 0 is the container's mutex, slot `i + 1` its picket lock `i`. */
  function LockId(container: nat, slot: nat): nat
  {
    container * SLOTS + slot
  }

  function PicketRequests(container: nat, pickets: seq<nat>): (rs: seq<Request>)
    ensures |rs| == |pickets|
    ensures forall k :: 0 <= k < |pickets| ==> rs[k] == Request(LockId(container, pickets[k] + 1), Plain)
  {
    seq(|pickets|, k requires 0 <= k < |pickets| => Request(LockId(container, pickets[k] + 1), Plain))
  }

  function Mutex(w: Work): Request
  {
    Request(LockId(w.container, 0), if w.access == Whole then Exclusive else Shared)
  }

  function RowLocks(w: Work): seq<Request>
    requires w.rowSize > 0
  {
    if w.access.Rows? then PicketRequests(w.container, Pickets(w.access.entries, w.rowSize)) else []
  }

  /** `initializeCommit` and `initializeRollback` over the modified containers. */
  function Taken(works: seq<Work>): seq<Request>
    requires ValidWorks(works)
    decreases |works|
  {
    if works == [] then [] else [Mutex(works[0])] + RowLocks(works[0]) + Taken(works[1..])
  }

  /** `completeCommit` and `completeRollback`, last container first. */
  function Given(works: seq<Work>): seq<Request>
    requires ValidWorks(works)
    decreases |works|
  {
    if works == [] then [] else Given(works[1..]) + RowLocks(works[0]) + [Mutex(works[0])]
  }

  /** The containers come from an ordered set. */
  predicate ValidWorks(works: seq<Work>)
  {
    && (forall i :: 0 <= i < |works| ==> works[i].rowSize > 0)
    && forall i, j :: 0 <= i < j < |works| ==> works[i].container < works[j].container
  }

  lemma {:induction false} GivesBackWhatItTook(works: seq<Work>)
    requires ValidWorks(works)
    ensures multiset(Given(works)) == multiset(Taken(works))
    decreases |works|
  {
    if works != [] {
      GivesBackWhatItTook(works[1..]);
    }
  }

  ghost predicate Ascending(rs: seq<Request>)
  {
    forall i, j :: 0 <= i < j < |rs| ==> rs[i].lock < rs[j].lock
  }

  lemma LocksInContainer(container: nat, slot: nat)
    requires slot < SLOTS
    ensures LockId(container, 0) <= LockId(container, slot) < LockId(container + 1, 0)
  {
  }

  lemma ContainersApart(a: nat, b: nat)
    requires a < b
    ensures LockId(a + 1, 0) <= LockId(b, 0)
  {
  }

  lemma OneContainer(w: Work)
    requires w.rowSize > 0
    ensures var rs := [Mutex(w)] + RowLocks(w);
      Ascending(rs) && forall r :: r in rs ==> LockId(w.container, 0) <= r.lock < LockId(w.container + 1, 0)
  {
    hide Pickets;
    var rs := [Mutex(w)] + RowLocks(w);
    if w.access.Rows? {
      var pickets := Pickets(w.access.entries, w.rowSize);
      forall k | 0 <= k < |pickets| ensures pickets[k] < NUM_LOCKS {
        assert pickets[k] in pickets;
      }
      forall i, j | 0 <= i < j < |rs| ensures rs[i].lock < rs[j].lock {
        assert j >= 1 && rs[j] == Request(LockId(w.container, pickets[j - 1] + 1), Plain);
        assert i >= 1 ==> rs[i] == Request(LockId(w.container, pickets[i - 1] + 1), Plain);
      }
    }
    LocksInContainer(w.container, 0);
  }

  /** Every transaction takes its locks in ascending order. */
  lemma {:induction false} TakenAscends(works: seq<Work>)
    requires ValidWorks(works)
    ensures Ascending(Taken(works))
    ensures works != [] ==> forall r :: r in Taken(works) ==> LockId(works[0].container, 0) <= r.lock
    decreases |works|
  {
    hide LockId, RowLocks, Mutex;
    if works != [] {
      var here: seq<Request> := [Mutex(works[0])] + RowLocks(works[0]);
      var rest: seq<Request> := Taken(works[1..]);
      var all: seq<Request> := here + rest;
      assert Taken(works) == here + rest;
      OneContainer(works[0]);
      TakenAscends(works[1..]);
      if |works| > 1 {
        ContainersApart(works[0].container, works[1].container);
        LocksInContainer(works[0].container, 0);
      }
      forall i, j | 0 <= i < j < |all| ensures all[i].lock < all[j].lock {
        assert i < |here| ==> all[i] in here;
        assert j >= |here| ==> all[j] in rest;
      }
      forall r | r in all ensures LockId(works[0].container, 0) <= r.lock {
        assert r in here || r in rest;
      }
    }
  }

  // ---- the protocol

  /** Taking the `n`-th lock, perhaps with the exclusive flag set already, or giving back. */
  datatype Stage = Taking(n: nat, claimed: bool) | Giving(n: nat)
  datatype Thread = Thread(works: seq<Work>, stage: Stage)
  type State = map<nat, Thread>

  datatype Event = Start(t: nat, works: seq<Work>) | Step(t: nat)

  ghost predicate Sound(th: Thread)
  {
    && ValidWorks(th.works)
    && match th.stage
       case Taking(n, claimed) => n <= |Taken(th.works)|
         && (claimed ==> n < |Taken(th.works)| && Taken(th.works)[n].mode == Exclusive)
       case Giving(n) => n <= |Given(th.works)|
  }

  function Held(th: Thread): seq<Request>
    requires ValidWorks(th.works)
  {
    match th.stage
    case Taking(n, _) => if n <= |Taken(th.works)| then Taken(th.works)[..n] else []
    case Giving(n) => if n <= |Given(th.works)| then Given(th.works)[n..] else []
  }

  predicate Waits(th: Thread)
    requires ValidWorks(th.works)
  {
    th.stage.Taking? && th.stage.n < |Taken(th.works)|
  }

  function Wanted(th: Thread): Request
    requires ValidWorks(th.works) && Waits(th)
  {
    Taken(th.works)[th.stage.n]
  }

  predicate Finished(th: Thread)
    requires ValidWorks(th.works)
  {
    th.stage.Giving? && th.stage.n >= |Given(th.works)|
  }

  /** The exclusive flag of the mutex is set by this thread. */
  predicate Flags(th: Thread, lock: nat)
    requires ValidWorks(th.works)
  {
    Request(lock, Exclusive) in Held(th) || (Waits(th) && th.stage.claimed && Wanted(th).lock == lock)
  }

  ghost predicate AllSound(s: State)
  {
    forall t :: t in s ==> Sound(s[t])
  }

  /** Whether the thread's request for its next lock is granted, or its exclusive flag taken. */
  ghost predicate Granted(s: State, t: nat)
    requires AllSound(s) && t in s && Waits(s[t])
  {
    var r := Wanted(s[t]);
    match r.mode
    case Shared => forall u :: u in s && u != t ==> !Flags(s[u], r.lock)
    case Exclusive =>
      if s[t].stage.claimed then forall u :: u in s && u != t ==> Request(r.lock, Shared) !in Held(s[u])
      else forall u :: u in s && u != t ==> !Flags(s[u], r.lock)
    case Plain => forall u :: u in s && u != t ==> Request(r.lock, Plain) !in Held(s[u])
  }

  ghost predicate CanStep(s: State, t: nat)
    requires AllSound(s)
  {
    t in s && !Finished(s[t]) && (Waits(s[t]) ==> Granted(s, t))
  }

  function NextStage(th: Thread): Stage
    requires ValidWorks(th.works)
  {
    match th.stage
    case Taking(n, claimed) =>
      if n >= |Taken(th.works)| then Giving(0)
      else if Taken(th.works)[n].mode == Exclusive && !claimed then Taking(n, true)
      else Taking(n + 1, false)
    case Giving(n) => Giving(n + 1)
  }

  ghost predicate Enabled(s: State, e: Event)
    requires AllSound(s)
  {
    match e
    case Start(t, works) => t !in s && ValidWorks(works)
    case Step(t) => CanStep(s, t)
  }

  function Apply(s: State, e: Event): State
    requires e.Step? ==> e.t in s && ValidWorks(s[e.t].works)
  {
    match e
    case Start(t, works) => s[t := Thread(works, Taking(0, false))]
    case Step(t) => s[t := s[t].(stage := NextStage(s[t]))]
  }

  lemma EventKeepsSound(s: State, e: Event)
    requires AllSound(s) && Enabled(s, e)
    ensures AllSound(Apply(s, e))
  {
    hide Taken, Given;
  }

  ghost predicate ValidRun(s: State, es: seq<Event>)
    requires AllSound(s)
    decreases |es|
  {
    es == [] || (Enabled(s, es[0]) && (EventKeepsSound(s, es[0]); ValidRun(Apply(s, es[0]), es[1..])))
  }

  ghost function Exec(s: State, es: seq<Event>): (r: State)
    requires AllSound(s) && ValidRun(s, es)
    ensures AllSound(r)
    decreases |es|
  {
    if es == [] then s
    else
      EventKeepsSound(s, es[0]);
      Exec(Apply(s, es[0]), es[1..])
  }

  // ---- deadlock freedom

  /** A lock that a waiting thread holds is below the one it waits for. */
  lemma HeldBelowWanted(th: Thread, lock: nat, mode: Mode)
    requires Sound(th) && Request(lock, mode) in Held(th)
    ensures Waits(th) ==> lock < Wanted(th).lock
  {
    hide Taken;
    TakenAscends(th.works);
    var k :| 0 <= k < |Held(th)| && Held(th)[k] == Request(lock, mode);
  }

  ghost function WantedLocks(s: State): (locks: set<int>)
    requires AllSound(s)
    ensures forall t :: t in s && Waits(s[t]) ==> Wanted(s[t]).lock in locks
  {
    set t | t in s && Waits(s[t]) :: Wanted(s[t]).lock
  }

  /** In the way of the greatest lock anyone waits for stands only a thread that can go on. */
  lemma HolderCanStep(s: State, u: nat, lock: nat, mode: Mode)
    requires AllSound(s) && u in s && Request(lock, mode) in Held(s[u])
    requires forall l :: l in WantedLocks(s) ==> l <= lock
    ensures CanStep(s, u)
  {
    hide Taken, Given;
    HeldBelowWanted(s[u], lock, mode);
    WantedIn(s, u);
  }

  lemma WantedIn(s: State, t: nat)
    requires AllSound(s) && t in s
    ensures Waits(s[t]) ==> Wanted(s[t]).lock in WantedLocks(s)
  {
  }

  /** Whoever waits for the greatest wanted lock can go on, or somebody in its way can. */
  lemma TopCanStep(s: State, t: nat) returns (w: nat)
    requires AllSound(s) && t in s && Waits(s[t])
    requires forall l :: l in WantedLocks(s) ==> l <= Wanted(s[t]).lock
    ensures CanStep(s, w)
  {
    hide Taken, Given;
    var r := Wanted(s[t]);
    w := t;
    if !Granted(s, t) {
      if r.mode == Plain {
        var u :| u in s && u != t && Request(r.lock, Plain) in Held(s[u]);
        HolderCanStep(s, u, r.lock, Plain);
        w := u;
      } else if r.mode == Exclusive && s[t].stage.claimed {
        var u :| u in s && u != t && Request(r.lock, Shared) in Held(s[u]);
        HolderCanStep(s, u, r.lock, Shared);
        w := u;
      } else {
        var u :| u in s && u != t && Flags(s[u], r.lock);
        w := FlagHolderCanStep(s, u, r.lock);
      }
    }
  }

  lemma FlagHolderCanStep(s: State, u: nat, lock: nat) returns (w: nat)
    requires AllSound(s) && u in s && Flags(s[u], lock)
    requires forall l :: l in WantedLocks(s) ==> l <= lock
    ensures CanStep(s, w)
  {
    hide Taken, Given;
    if Request(lock, Exclusive) in Held(s[u]) {
      HolderCanStep(s, u, lock, Exclusive);
      w := u;
    } else if Granted(s, u) {
      w := u;
    } else {
      var v :| v in s && v != u && Request(lock, Shared) in Held(s[v]);
      HolderCanStep(s, v, lock, Shared);
      w := v;
    }
  }

  /**
   Deadlock freedom: in every reachable state, as long as some transaction has not finished, some
   transaction can take its next step.
   */
  lemma NoDeadlock(s: State, t: nat) returns (w: nat)
    requires AllSound(s) && t in s && !Finished(s[t])
    ensures CanStep(s, w)
  {
    hide Taken, Given;
    if !Waits(s[t]) {
      w := t;
    } else {
      assert Wanted(s[t]).lock in WantedLocks(s);
      GreatestExists(WantedLocks(s));
      var top :| top in WantedLocks(s) && forall l :: l in WantedLocks(s) ==> l <= top;
      var u :| u in s && Waits(s[u]) && Wanted(s[u]).lock == top;
      w := TopCanStep(s, u);
    }
  }

  /** The steps a thread still has before it. */
  function StepsLeft(th: Thread): int
    requires ValidWorks(th.works)
  {
    match th.stage
    case Taking(n, claimed) => 2 * (|Taken(th.works)| - n) - (if claimed then 1 else 0) + |Given(th.works)| + 1
    case Giving(n) => |Given(th.works)| - n
  }

  /** Every step brings its thread nearer to its end, and moves no other. */
  lemma StepIsProgress(s: State, t: nat)
    requires AllSound(s) && CanStep(s, t)
    ensures var s' := Apply(s, Step(t));
      && 0 <= StepsLeft(s'[t]) < StepsLeft(s[t])
      && (Finished(s[t]) <==> StepsLeft(s[t]) == 0)
      && forall u :: u in s && u != t ==> s'[u] == s[u]
  {
    hide Taken, Given;
  }

  /** A finished transaction holds no lock, having given back just the locks it took. */
  lemma FinishedHoldsNothing(th: Thread)
    requires Sound(th) && Finished(th)
    ensures Held(th) == [] && multiset(Given(th.works)) == multiset(Taken(th.works))
  {
    GivesBackWhatItTook(th.works);
  }

  // ---- mutual exclusion

  /** No two threads are in each other's way on any lock. */
  ghost predicate Excludes(a: Thread, b: Thread)
    requires ValidWorks(a.works) && ValidWorks(b.works)
  {
    forall lock ::
      && !(Flags(a, lock) && Flags(b, lock))
      && !(Request(lock, Exclusive) in Held(a) && Request(lock, Shared) in Held(b))
      && !(Request(lock, Shared) in Held(a) && Request(lock, Exclusive) in Held(b))
      && !(Request(lock, Plain) in Held(a) && Request(lock, Plain) in Held(b))
  }

  ghost predicate Exclusion(s: State)
    requires AllSound(s)
  {
    forall t, u :: t in s && u in s && t != u ==> Excludes(s[t], s[u])
  }

  /** What a step adds to the locks of its thread: at most the one it waited for. */
  lemma HeldAfter(th: Thread, q: Request)
    requires Sound(th)
    ensures var next := th.(stage := NextStage(th));
      q in Held(next) ==> q in Held(th) || (Waits(th) && q == Wanted(th) && (q.mode == Exclusive ==> th.stage.claimed))
    ensures var next := th.(stage := NextStage(th));
      Flags(next, q.lock) ==> Flags(th, q.lock) || (Waits(th) && q.lock == Wanted(th).lock && Wanted(th).mode == Exclusive)
  {
    hide Taken, Given;
    GivesBackWhatItTook(th.works);
    var take, give := Taken(th.works), Given(th.works);
    forall r ensures r in take <==> r in give {
      assert r in multiset(take) <==> r in multiset(give);
    }
    assert take[..|take|] == take && give[0..] == give;
  }

  lemma StepExcludes(s: State, t: nat, u: nat)
    requires AllSound(s) && Exclusion(s) && CanStep(s, t) && u in s && u != t
    ensures var next := s[t].(stage := NextStage(s[t])); Excludes(next, s[u])
  {
    hide Taken, Given, NextStage, Held;
    var next := s[t].(stage := NextStage(s[t]));
    assert Excludes(s[t], s[u]);
    forall lock
      ensures !(Flags(next, lock) && Flags(s[u], lock))
      ensures !(Request(lock, Exclusive) in Held(next) && Request(lock, Shared) in Held(s[u]))
      ensures !(Request(lock, Shared) in Held(next) && Request(lock, Exclusive) in Held(s[u]))
      ensures !(Request(lock, Plain) in Held(next) && Request(lock, Plain) in Held(s[u]))
    {
      HeldAfter(s[t], Request(lock, Exclusive));
      HeldAfter(s[t], Request(lock, Shared));
      HeldAfter(s[t], Request(lock, Plain));
    }
  }

  lemma EventKeepsExclusion(s: State, e: Event)
    requires AllSound(s) && Exclusion(s) && Enabled(s, e) && AllSound(Apply(s, e))
    ensures Exclusion(Apply(s, e))
  {
    hide Taken, Given, Excludes, NextStage;
    var s' := Apply(s, e);
    forall t, u | t in s' && u in s' && t != u ensures Excludes(s'[t], s'[u]) {
      if e.Start? && (t == e.t || u == e.t) {
        NewHoldsNothing(s'[e.t], s'[if t == e.t then u else t]);
        Mirrored(s'[t], s'[u]);
      } else if e.Step? && t == e.t {
        StepExcludes(s, t, u);
      } else if e.Step? && u == e.t {
        StepExcludes(s, u, t);
        Mirrored(s'[t], s'[u]);
      }
    }
  }

  lemma Mirrored(a: Thread, b: Thread)
    requires ValidWorks(a.works) && ValidWorks(b.works)
    ensures Excludes(a, b) <==> Excludes(b, a)
  {
    hide Taken, Given, Held;
  }

  lemma NewHoldsNothing(a: Thread, b: Thread)
    requires ValidWorks(a.works) && ValidWorks(b.works) && a.stage == Taking(0, false)
    ensures Excludes(a, b)
  {
    hide Taken, Given;
    assert Held(a) == [];
  }

  lemma {:induction false} RunKeepsExclusion(s: State, es: seq<Event>)
    requires AllSound(s) && Exclusion(s) && ValidRun(s, es)
    ensures Exclusion(Exec(s, es))
    decreases |es|
  {
    hide Exclusion, Apply, Granted, Waits, Finished, Taken, Given;
    if es != [] {
      EventKeepsSound(s, es[0]);
      EventKeepsExclusion(s, es[0]);
      RunKeepsExclusion(Apply(s, es[0]), es[1..]);
    }
  }

  /**
   In every reachable state no lock is held by two transactions in conflicting modes, and as long as
   some transaction has not finished, some transaction can take its next step.
   */
  lemma ReachableIsSafeAndLive(es: seq<Event>)
    requires ValidRun(map[], es)
    ensures Exclusion(Exec(map[], es))
    ensures (exists t :: t in Exec(map[], es) && !Finished(Exec(map[], es)[t])) ==>
      exists w :: CanStep(Exec(map[], es), w)
  {
    hide Exclusion, CanStep, Finished, Enabled, Apply;
    assert Exclusion(map[]) by {
      NobodyExcludes();
    }
    RunKeepsExclusion(map[], es);
    var r := Exec(map[], es);
    if t :| t in r && !Finished(r[t]) {
      var w := NoDeadlock(r, t);
    }
  }

  lemma NobodyExcludes()
    ensures Exclusion(map[])
  {
  }

  // ---- the locks guard the rows

  /** Of the 32 locks of a container the first one is its mutex. */
  function ContainerOf(r: Request): nat
  {
    r.lock / 32
  }

  predicate IsMutex(r: Request)
  {
    r.lock % 32 == 0
  }

  lemma LockParts(container: nat, slot: nat, mode: Mode)
    requires slot < SLOTS
    ensures ContainerOf(Request(LockId(container, slot), mode)) == container
    ensures IsMutex(Request(LockId(container, slot), mode)) <==> slot == 0
  {
  }

  /** The locks of one container, as they are given back: all picket locks and then the mutex. */
  lemma OneContainerBack(w: Work, k: nat)
    requires w.rowSize > 0 && k <= |RowLocks(w)|
    ensures var rs := RowLocks(w) + [Mutex(w)];
      ContainerOf(rs[k]) == w.container && (IsMutex(rs[k]) <==> k == |RowLocks(w)|)
  {
    hide ContainerOf, IsMutex, LockId, Pickets;
    if k < |RowLocks(w)| {
      var pickets := Pickets(w.access.entries, w.rowSize);
      assert pickets[k] in pickets;
      LockParts(w.container, pickets[k] + 1, Plain);
    } else {
      LockParts(w.container, 0, Mutex(w).mode);
    }
  }

  /** Later containers come first, and in each its mutex last. */
  ghost predicate Backwards(rs: seq<Request>)
  {
    forall i, j :: 0 <= i < j < |rs| ==>
      ContainerOf(rs[j]) < ContainerOf(rs[i]) || (ContainerOf(rs[j]) == ContainerOf(rs[i]) && !IsMutex(rs[i]))
  }

  lemma BackwardsMore(rest: seq<Request>, here: seq<Request>, container: nat)
    requires Backwards(rest) && forall k :: 0 <= k < |rest| ==> container < ContainerOf(rest[k])
    requires forall k :: 0 <= k < |here| ==> ContainerOf(here[k]) == container && (IsMutex(here[k]) ==> k == |here| - 1)
    ensures Backwards(rest + here) && forall k :: 0 <= k < |rest + here| ==> container <= ContainerOf((rest + here)[k])
  {
    hide ContainerOf, IsMutex;
  }

  /**
   Locks are given back container by container, the last one first, and in each container the mutex
   after all picket locks.
   */
  lemma {:induction false} GivenBackwards(works: seq<Work>)
    requires ValidWorks(works)
    ensures Backwards(Given(works))
    ensures works != [] ==>
      forall k :: 0 <= k < |Given(works)| ==> works[0].container <= ContainerOf(Given(works)[k])
    decreases |works|
  {
    hide RowLocks, Mutex, Backwards, ContainerOf, IsMutex;
    if works == [] {
      NothingBackwards();
    } else {
      var rest, here := Given(works[1..]), RowLocks(works[0]) + [Mutex(works[0])];
      assert Given(works) == rest + here;
      GivenBackwards(works[1..]);
      forall k | 0 <= k < |here|
        ensures ContainerOf(here[k]) == works[0].container && (IsMutex(here[k]) ==> k == |here| - 1)
      {
        OneContainerBack(works[0], k);
      }
      assert |works| > 1 ==> works[1..][0] == works[1] && works[0].container < works[1].container;
      BackwardsMore(rest, here, works[0].container);
    }
  }

  lemma NothingBackwards()
    ensures Backwards([])
  {
  }

  /** All locks are taken and none has been given back: the thread commits or rolls back its operations. */
  predicate Applies(th: Thread)
    requires ValidWorks(th.works)
  {
    match th.stage
    case Taking(n, _) => n == |Taken(th.works)|
    case Giving(n) => n == 0
  }

  lemma HoldsAll(th: Thread)
    requires Sound(th) && Applies(th)
    ensures forall r :: r in Held(th) <==> r in Taken(th.works)
  {
    hide Taken, Given;
    GivesBackWhatItTook(th.works);
    var take, give := Taken(th.works), Given(th.works);
    forall r ensures r in take <==> r in give {
      assert r in multiset(take) <==> r in multiset(give);
    }
    assert take[..|take|] == take && give[0..] == give;
  }

  lemma {:induction false} TakenHas(works: seq<Work>, i: nat)
    requires ValidWorks(works) && i < |works|
    ensures Mutex(works[i]) in Taken(works)
    ensures forall r :: r in RowLocks(works[i]) ==> r in Taken(works)
    decreases |works|
  {
    hide Mutex, RowLocks;
    if i > 0 {
      assert works[1..][i - 1] == works[i];
      TakenHas(works[1..], i - 1);
    }
  }

  lemma RowsLocked(w: Work, e: nat)
    requires w.rowSize > 0 && w.access.Rows? && e in w.access.entries
    ensures Request(LockId(w.container, Index(e, w.rowSize) + 1), Plain) in RowLocks(w)
  {
    var entries := w.access.entries;
    var pickets := Pickets(entries, w.rowSize);
    var k :| 0 <= k < |entries| && entries[k] == e;
    assert Index(entries[k], w.rowSize) in pickets;
    var j :| 0 <= j < |pickets| && pickets[j] == Index(e, w.rowSize);
    assert PicketRequests(w.container, pickets)[j] in RowLocks(w);
  }

  lemma {:induction false} TakenFrom(works: seq<Work>, r: Request) returns (i: nat)
    requires ValidWorks(works) && r in Taken(works)
    ensures i < |works| && r in [Mutex(works[i])] + RowLocks(works[i])
    decreases |works|
  {
    hide Mutex, RowLocks;
    if r in [Mutex(works[0])] + RowLocks(works[0]) {
      i := 0;
    } else {
      var k := TakenFrom(works[1..], r);
      i := k + 1;
    }
  }

  /** The mutex that goes with a lock that a transaction takes. */
  lemma MutexOf(works: seq<Work>, r: Request) returns (m: Request)
    requires ValidWorks(works) && r in Taken(works)
    ensures m in Taken(works) && IsMutex(m) && ContainerOf(m) == ContainerOf(r) && m.lock <= r.lock
  {
    hide Taken, ContainerOf, IsMutex, LockId, Pickets;
    var i := TakenFrom(works, r);
    var w := works[i];
    m := Mutex(w);
    TakenHas(works, i);
    LockParts(w.container, 0, m.mode);
    if r != m {
      var k :| 0 <= k < |RowLocks(w)| && RowLocks(w)[k] == r;
      OneContainerBack(w, k);
      assert (RowLocks(w) + [m])[k] == r;
      OneContainer(w);
      assert r in [m] + RowLocks(w);
    }
  }

  lemma SameLocks(works: seq<Work>, r: Request)
    requires ValidWorks(works)
    ensures r in Taken(works) <==> r in Given(works)
  {
    hide Taken, Given;
    GivesBackWhatItTook(works);
    assert r in multiset(Taken(works)) <==> r in multiset(Given(works));
  }

  /**
   Two levels: at every moment, taking locks or giving them back, whoever holds a picket lock holds the
   mutex of its container.
   */
  lemma PicketsUnderMutex(th: Thread, r: Request) returns (m: Request)
    requires Sound(th) && r in Held(th)
    ensures m in Held(th) && IsMutex(m) && ContainerOf(m) == ContainerOf(r)
  {
    hide Taken, Given, ContainerOf, IsMutex;
    SameLocks(th.works, r);
    m := MutexOf(th.works, r);
    SameLocks(th.works, m);
    match th.stage
    case Taking(n, _) =>
      TakenAscends(th.works);
      var take := Taken(th.works);
      var i :| 0 <= i < n && take[i] == r;
      var j :| 0 <= j < |take| && take[j] == m;
      assert j <= i;
      assert take[..n][j] == m;
    case Giving(n) =>
      GivenBackwards(th.works);
      var give := Given(th.works);
      var i :| n <= i < |give| && give[i] == r;
      var j :| 0 <= j < |give| && give[j] == m;
      assert i <= j;
      assert give[n..][j - n] == m;
  }

  /**
   What a transaction holds while it works on its containers: the container's mutex, exclusively if it
   changes the container as a whole and shared otherwise, and the picket lock of every row it has changed.
   */
  lemma LocksGuardRows(th: Thread, i: nat)
    requires Sound(th) && Applies(th) && i < |th.works|
    ensures var w := th.works[i];
      && (w.access == Whole ==> Request(LockId(w.container, 0), Exclusive) in Held(th))
      && (w.access != Whole ==> Request(LockId(w.container, 0), Shared) in Held(th))
      && (w.access.Rows? ==> forall e :: e in w.access.entries ==>
            Request(LockId(w.container, Index(e, w.rowSize) + 1), Plain) in Held(th))
  {
    hide Taken, Given, Held, RowLocks;
    var w := th.works[i];
    HoldsAll(th);
    TakenHas(th.works, i);
    if w.access.Rows? {
      forall e | e in w.access.entries ensures Request(LockId(w.container, Index(e, w.rowSize) + 1), Plain) in Held(th) {
        RowsLocked(w, e);
      }
    }
  }

  lemma ExclusiveFlags(th: Thread, lock: nat)
    requires ValidWorks(th.works)
    ensures Request(lock, Exclusive) in Held(th) ==> Flags(th, lock)
  {
  }

  /**
   Isolation of commits: in every reachable state, of two transactions that are applying their changes
   to one container neither changes it as a whole, and no row of the one shares a picket lock with a row
   of the other; in particular, no row is changed by both.
   */
  lemma CommitsAreApart(es: seq<Event>, t: nat, u: nat, i: nat, j: nat)
    requires ValidRun(map[], es) && t != u && t in Exec(map[], es) && u in Exec(map[], es)
    requires Applies(Exec(map[], es)[t]) && Applies(Exec(map[], es)[u])
    requires i < |Exec(map[], es)[t].works| && j < |Exec(map[], es)[u].works|
    requires Exec(map[], es)[t].works[i].container == Exec(map[], es)[u].works[j].container
    ensures var v, w := Exec(map[], es)[t].works[i], Exec(map[], es)[u].works[j];
      && v.access != Whole && w.access != Whole
      && (v.access.Rows? && w.access.Rows? ==>
            forall e, f :: e in v.access.entries && f in w.access.entries ==>
              v.rowSize > 0 && w.rowSize > 0 && Index(e, v.rowSize) != Index(f, w.rowSize))
  {
    hide Taken, Given, Held, Applies, Exec, ValidRun, Enabled, Apply, LockId;
    var s := Exec(map[], es);
    ReachableIsSafeAndLive(es);
    assert Excludes(s[t], s[u]);
    LocksGuardRows(s[t], i);
    LocksGuardRows(s[u], j);
    var v, w := s[t].works[i], s[u].works[j];
    ExclusiveFlags(s[t], LockId(v.container, 0));
    ExclusiveFlags(s[u], LockId(v.container, 0));
    if v.access.Rows? && w.access.Rows? {
      forall e, f | e in v.access.entries && f in w.access.entries
        ensures Index(e, v.rowSize) != Index(f, w.rowSize)
      {
        assert Request(LockId(v.container, Index(e, v.rowSize) + 1), Plain) in Held(s[t]);
        assert Request(LockId(w.container, Index(f, w.rowSize) + 1), Plain) in Held(s[u]);
      }
    }
  }
}
