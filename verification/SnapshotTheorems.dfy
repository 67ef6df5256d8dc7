/** What a whole run of the checkpoint protocol guarantees, for every interleaving of its events. */
module SnapshotTheorems {
  import opened PageMap
  import opened SnapshotProtocol
  import opened SnapshotInvariant

  lemma {:induction false} RunKeepsInv(s: State, es: seq<Event>)
    requires Inv(s) && ValidRun(s, es)
    ensures Inv(Exec(s, es)) && |Exec(s, es).region| == |s.region|
    decreases |es|
  {
    hide Inv;
    if es != [] {
      EventKeeps(s, es[0]);
      assert |Apply(s, es[0]).region| == |s.region|;
      RunKeepsInv(Apply(s, es[0]), es[1..]);
    }
  }

  /**
   No run fails: `allocate` always finds a free page, `modified_pages` never overflows, and both
   BOOST_VERIFYs of `checkpoint` hold.
   */
  lemma NeverFails(region: seq<Page>, file: seq<Page>, es: seq<Event>)
    requires |file| == 2 * |region| < NULL_PAGE && ValidRun(Initial(region, file), es)
    ensures !Exec(Initial(region, file), es).failed
    ensures Consistent(Exec(Initial(region, file), es).info, |region|)
  {
    InitialInv(region, file);
    RunKeepsInv(Initial(region, file), es);
  }


  ghost predicate NoSwap(es: seq<Event>) { forall i :: 0 <= i < |es| ==> !es[i].Swap? }

  ghost predicate NoComplete(es: seq<Event>) { forall i :: 0 <= i < |es| ==> !es[i].Complete? }

  ghost predicate Stores(es: seq<Event>, p: int)
  {
    exists i :: 0 <= i < |es| && es[i].Store? && es[i].p == p
  }

  lemma {:induction false} SnapshotStays(s: State, es: seq<Event>)
    requires ValidRun(s, es) && NoSwap(es)
    ensures Exec(s, es).h.snapshot == s.h.snapshot && Exec(s, es).h.writtenAtSwap == s.h.writtenAtSwap
    decreases |es|
  {
    if es != [] {
      assert !es[0].Swap?;
      SnapshotStays(Apply(s, es[0]), es[1..]);
    }
  }

  lemma {:induction false} WrittenAreStored(s: State, es: seq<Event>, p: int)
    requires ValidRun(s, es)
    ensures p in Exec(s, es).h.written <==> p in s.h.written || Stores(es, p)
    decreases |es|
  {
    if es != [] {
      var s' := Apply(s, es[0]);
      WrittenAreStored(s', es[1..], p);
      assert p in s'.h.written <==> p in s.h.written || (es[0].Store? && es[0].p == p);
      if Stores(es[1..], p) {
        var i :| 0 <= i < |es[1..]| && es[1..][i].Store? && es[1..][i].p == p;
        assert es[i + 1].Store? && es[i + 1].p == p;
      }
      if Stores(es, p) {
        var i :| 0 <= i < |es| && es[i].Store? && es[i].p == p;
        assert i > 0 ==> es[1..][i - 1] == es[i];
      }
    }
  }

  /** Region page `r` has a place in the file, and that place holds `content`. */
  ghost predicate Holds(s: State, r: nat, content: Page)
  {
    && r < |s.info.locs| && s.info.locs[r] != NULL_PAGE
    && s.info.locs[r] < |s.file| && s.file[s.info.locs[r]] == content
  }

  ghost predicate Unplaced(s: State, r: nat)
  {
    r < |s.info.locs| && s.info.locs[r] == NULL_PAGE
  }

  /** What `Inv` says of a state in which a checkpoint has just been completed. */
  lemma CompletedContent(s: State, r: nat)
    requires Inv(s) && Enabled(s, Complete) && r < |s.region|
    ensures var f := Apply(s, Complete);
      Holds(f, r, s.h.snapshot[r]) || (Unplaced(f, r) && r !in s.h.writtenAtSwap)
  {
    AllFinished(s);
  }

  lemma SwapRecords(s: State)
    requires Inv(s) && Enabled(s, Swap)
    ensures var w := Apply(s, Swap);
      Inv(w) && w.h.snapshot == s.region && w.h.writtenAtSwap == s.h.written && |w.region| == |s.region|
  {
    SwapKeeps(s);
  }

  /**
   Snapshot correctness.  Take any run `before`, swap, let any other events happen, and complete:
   every page that has a place in the file holds there exactly what the region held at the swap,
   and a page without a place had never been stored to.
   */
  lemma CheckpointIsSnapshot(region: seq<Page>, file: seq<Page>, before: seq<Event>, during: seq<Event>, r: nat)
    requires |file| == 2 * |region| < NULL_PAGE && r < |region|
    requires ValidRun(Initial(region, file), before) && Enabled(Exec(Initial(region, file), before), Swap)
    requires var w := Apply(Exec(Initial(region, file), before), Swap);
      NoSwap(during) && ValidRun(w, during) && Enabled(Exec(w, during), Complete)
    ensures var s := Exec(Initial(region, file), before);
      var f := Apply(Exec(Apply(s, Swap), during), Complete);
      r < |s.region| && (Holds(f, r, s.region[r]) || (Unplaced(f, r) && !Stores(before, r)))
  {
    var init := Initial(region, file);
    InitialInv(region, file);
    RunKeepsInv(init, before);
    var s := Exec(init, before);
    SwapRecords(s);
    var w := Apply(s, Swap);
    RunKeepsInv(w, during);
    SnapshotStays(w, during);
    CompletedContent(Exec(w, during), r);
    WrittenAreStored(init, before, r);
  }

  lemma {:induction false} LastStays(s: State, es: seq<Event>)
    requires ValidRun(s, es) && NoComplete(es)
    ensures Exec(s, es).h.last == s.h.last && Exec(s, es).h.lastSnapshot == s.h.lastSnapshot
    decreases |es|
  {
    if es != [] {
      assert !es[0].Complete?;
      LastStays(Apply(s, es[0]), es[1..]);
    }
  }

  /** What `Inv` says of the last completed checkpoint. */
  lemma LastReadable(s: State, r: nat)
    requires Inv(s) && r < |s.region| && s.h.last[r] != NULL_PAGE
    ensures s.h.last[r] < |s.file| && s.file[s.h.last[r]] == s.h.lastSnapshot[r] && s.h.last[r] !in s.info.free
  {
  }

  /**
   Shadow paging.  From the completion of one checkpoint to the completion of the next, no file page
   that the completed page map refers to is overwritten, and none is free to be handed out.
   */
  lemma LastCheckpointUntouched(region: seq<Page>, file: seq<Page>, before: seq<Event>, after: seq<Event>, r: nat)
    requires |file| == 2 * |region| < NULL_PAGE && r < |region|
    requires ValidRun(Initial(region, file), before) && Enabled(Exec(Initial(region, file), before), Complete)
    requires var m := Apply(Exec(Initial(region, file), before), Complete);
      NoComplete(after) && ValidRun(m, after)
    ensures var m := Apply(Exec(Initial(region, file), before), Complete);
      var f := Exec(m, after);
      r < |m.info.locs| && (m.info.locs[r] != NULL_PAGE ==>
        && m.info.locs[r] < |m.file| == |f.file|
        && f.file[m.info.locs[r]] == m.file[m.info.locs[r]]
        && m.info.locs[r] !in f.info.free)
  {
    var init := Initial(region, file);
    InitialInv(region, file);
    RunKeepsInv(init, before);
    CompleteKeeps(Exec(init, before));
    var m := Apply(Exec(init, before), Complete);
    RunKeepsInv(m, after);
    LastStays(m, after);
    if m.info.locs[r] != NULL_PAGE {
      LastReadable(m, r);
      LastReadable(Exec(m, after), r);
    }
  }

  /** Event `e`, taken in state `s`, finishes a copy of page `p`. */
  ghost predicate FinishesCopyOf(s: State, e: Event, p: int)
  {
    || (e.FinishCopy? && PcOf(s, e.t).Copying? && PcOf(s, e.t).page == p)
    || (e.CopierFinish? && s.copier.CopyingEntry? && s.copier.entry < |s.inprog.pages| && s.inprog.pages[s.copier.entry] == p)
  }

  ghost function CopiesMade(s: State, es: seq<Event>, p: int): nat
    requires ValidRun(s, es)
    decreases |es|
  {
    if es == [] then 0
    else (if FinishesCopyOf(s, es[0], p) then 1 else 0) + CopiesMade(Apply(s, es[0]), es[1..], p)
  }

  ghost function Owed(s: State, p: nat): nat
    requires p < |s.inprog.bits|
  {
    if s.inprog.bits[p] then 1 else 0
  }

  lemma CopyClearsBit(s: State, e: Event, p: nat)
    requires Shape(s) && Exclusive(s) && Enabled(s, e) && !e.Swap? && p < |s.region|
    ensures |Apply(s, e).inprog.bits| == |s.region|
    ensures Owed(s, p) == Owed(Apply(s, e), p) + if FinishesCopyOf(s, e, p) then 1 else 0
  {
    if e.FinishCopy? {
      assert Copies(s, e.t, PcOf(s, e.t).page, PcOf(s, e.t).dest);
    } else if e.CopierFinish? {
      assert Copies(s, COPIER, s.inprog.pages[s.copier.entry], s.copier.dest);
    }
  }

  lemma {:induction false} CopiesAreOwed(s: State, es: seq<Event>, p: nat)
    requires Inv(s) && ValidRun(s, es) && NoSwap(es) && p < |s.region|
    ensures |Exec(s, es).inprog.bits| == |s.region|
    ensures CopiesMade(s, es, p) + Owed(Exec(s, es), p) == Owed(s, p)
    decreases |es|
  {
    hide Consistent, Exclusive, Protected, Progress, Counted, Shadowed, Content, Apply, Enabled, FinishesCopyOf;
    if es != [] {
      assert !es[0].Swap?;
      CopyClearsBit(s, es[0], p);
      EventKeeps(s, es[0]);
      CopiesAreOwed(Apply(s, es[0]), es[1..], p);
    }
  }

  /**
   Exactly-once copying.  Between a swap and the completion that follows it, a page that was changed
   before the swap is copied once, by the copier or by a fault handler, and no other page is copied.
   */
  lemma EveryChangedPageOnce(region: seq<Page>, file: seq<Page>, before: seq<Event>, during: seq<Event>, p: nat)
    requires |file| == 2 * |region| < NULL_PAGE && p < |region|
    requires ValidRun(Initial(region, file), before) && Enabled(Exec(Initial(region, file), before), Swap)
    requires var w := Apply(Exec(Initial(region, file), before), Swap);
      NoSwap(during) && ValidRun(w, during) && Enabled(Exec(w, during), Complete)
    ensures var s := Exec(Initial(region, file), before);
      CopiesMade(Apply(s, Swap), during, p) == if p in s.cur.pages then 1 else 0
  {
    hide Consistent, Nowhere, Shadowed, Content, Exclusive, Counted;
    InitialInv(region, file);
    RunKeepsInv(Initial(region, file), before);
    var s := Exec(Initial(region, file), before);
    SwapRecords(s);
    var w := Apply(s, Swap);
    CopiesAreOwed(w, during, p);
    RunKeepsInv(w, during);
    AllFinished(Exec(w, during));
  }

  /** One more event at the end of a run. */
  lemma {:induction false} RunThen(s: State, es: seq<Event>, e: Event)
    requires ValidRun(s, es) && Enabled(Exec(s, es), e)
    ensures ValidRun(s, es + [e]) && Exec(s, es + [e]) == Apply(Exec(s, es), e)
    decreases |es|
  {
    if es == [] {
      assert ([] + [e])[1..] == [];
    } else {
      assert (es + [e])[0] == es[0] && (es + [e])[1..] == es[1..] + [e];
      RunThen(Apply(s, es[0]), es[1..], e);
    }
  }
}
