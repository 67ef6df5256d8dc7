/** A picket lock set: which of its mutexes guard a collection of rows, in the order they are locked. */
module PicketLockSet {

  const NUM_LOCKS: nat := 31

  /** The mutex for the row at an address, for rows of `rowSize` bytes. */
  function Index(address: nat, rowSize: nat): (i: nat)
    requires rowSize > 0
    ensures i < NUM_LOCKS
  {
    address / rowSize % NUM_LOCKS
  }

  /**
   The 31 locks are dealt out to the rows in turn: the bytes of one row share a lock, the first row has lock
   0, and each row has the lock after that of the row before it.
   */
  lemma LocksInTurn(address: nat, rowSize: nat)
    requires rowSize > 0
    ensures address < rowSize ==> Index(address, rowSize) == 0
    ensures Index(address + rowSize, rowSize) == (Index(address, rowSize) + 1) % 31
    ensures address % rowSize + 1 < rowSize ==> Index(address + 1, rowSize) == Index(address, rowSize)
  {
    hide Index;
    NextRow(address, rowSize);
    SameRow(address, rowSize);
    if address < rowSize {
      FirstRow(address, rowSize);
    }
  }

  lemma FirstRow(address: nat, rowSize: nat)
    requires address < rowSize
    ensures Index(address, rowSize) == 0
  {
    Quotient(address, rowSize, 0, address);
  }

  lemma NextRow(address: nat, rowSize: nat)
    requires rowSize > 0
    ensures Index(address + rowSize, rowSize) == (Index(address, rowSize) + 1) % 31
  {
    var q := address / rowSize;
    assert (q + 1) * rowSize == q * rowSize + rowSize;
    Quotient(address + rowSize, rowSize, q + 1, address % rowSize);
  }

  lemma SameRow(address: nat, rowSize: nat)
    requires rowSize > 0
    ensures address % rowSize + 1 < rowSize ==> Index(address + 1, rowSize) == Index(address, rowSize)
  {
    var q, r := address / rowSize, address % rowSize;
    if r + 1 < rowSize {
      Quotient(address + 1, rowSize, q, r + 1);
    }
  }

  lemma Quotient(x: nat, n: nat, q: nat, r: nat)
    requires r < n && x == q * n + r
    ensures x / n == q
  {
    var d := x / n;
    assert x == d * n + x % n;
    Products(d + 1, q, n);
    Products(q + 1, d, n);
  }

  lemma Products(a: nat, b: nat, n: nat)
    ensures a <= b ==> a * n <= b * n
  {
  }

  ghost predicate Sorted(s: seq<nat>)
  {
    forall i, j :: 0 <= i < j < |s| ==> s[i] <= s[j]
  }

  ghost predicate StrictlyAscending(s: seq<nat>)
  {
    forall i, j :: 0 <= i < j < |s| ==> s[i] < s[j]
  }

  /** `std::sort`. */
  function Sort(s: seq<nat>): (r: seq<nat>)
    ensures Sorted(r) && multiset(r) == multiset(s) && |r| == |s|
    decreases |s|
  {
    if s == [] then []
    else
      assert s == s[..|s| - 1] + [s[|s| - 1]];
      InsertSorted(Sort(s[..|s| - 1]), s[|s| - 1])
  }

  function InsertSorted(s: seq<nat>, x: nat): (r: seq<nat>)
    requires Sorted(s)
    ensures Sorted(r) && multiset(r) == multiset(s) + multiset{x} && |r| == |s| + 1
    decreases |s|
  {
    if s == [] || s[|s| - 1] <= x then s + [x]
    else
      var front, last := s[..|s| - 1], s[|s| - 1];
      assert s == front + [last];
      var r := InsertSorted(front, x);
      MembersBelow(front, r, x, last);
      r + [last]
  }

  lemma MembersBelow(front: seq<nat>, r: seq<nat>, x: nat, last: nat)
    requires multiset(r) == multiset(front) + multiset{x} && x <= last
    requires forall i :: 0 <= i < |front| ==> front[i] <= last
    ensures forall i :: 0 <= i < |r| ==> r[i] <= last
  {
    forall i | 0 <= i < |r| ensures r[i] <= last {
      assert r[i] in multiset(r);
    }
  }

  /** `std::unique` and dropping the rest: of each run of equal numbers one stays. */
  function Unique(s: seq<nat>): (r: seq<nat>)
    requires Sorted(s)
    ensures StrictlyAscending(r) && forall x :: x in r <==> x in s
    decreases |s|
  {
    if |s| <= 1 then s
    else
      var front, last := s[..|s| - 1], s[|s| - 1];
      assert forall x :: x in s <==> x in front || x == last;
      var r := Unique(front);
      if s[|s| - 2] == last then
        assert front[|s| - 2] == last;
        r
      else
        FrontBelow(s, r);
        r + [last]
  }

  lemma FrontBelow(s: seq<nat>, r: seq<nat>)
    requires |s| > 1 && Sorted(s) && s[|s| - 2] != s[|s| - 1]
    requires forall x :: x in r ==> x in s[..|s| - 1]
    ensures forall i :: 0 <= i < |r| ==> r[i] < s[|s| - 1]
  {
    forall i | 0 <= i < |r| ensures r[i] < s[|s| - 1] {
      assert r[i] in r;
      var k :| 0 <= k < |s| - 1 && s[k] == r[i];
    }
  }

  /** The mutexes of a collection of rows. */
  function Pickets(entries: seq<nat>, rowSize: nat): (r: seq<nat>)
    requires rowSize > 0
    ensures StrictlyAscending(r)
    ensures forall i :: i in r <==> exists k :: 0 <= k < |entries| && Index(entries[k], rowSize) == i
  {
    var nums := seq(|entries|, k requires 0 <= k < |entries| => Index(entries[k], rowSize));
    var r := Unique(Sort(nums));
    SameNumbers(nums);
    assert forall k :: 0 <= k < |entries| ==> nums[k] == Index(entries[k], rowSize);
    assert forall i :: i in nums ==> exists k :: 0 <= k < |nums| && nums[k] == i;
    r
  }

  lemma SameNumbers(nums: seq<nat>)
    ensures forall x :: x in Sort(nums) <==> x in nums
  {
    forall x ensures x in Sort(nums) <==> x in nums {
      assert x in multiset(Sort(nums)) <==> x in multiset(nums);
    }
  }

  class LockSet {
    const rowSize: nat
    const count: array<nat>

    ghost predicate Valid()
    {
      rowSize > 0 && count.Length == NUM_LOCKS
    }

    constructor (rowSize: nat)
      requires rowSize > 0
      ensures Valid() && this.rowSize == rowSize && fresh(count)
    {
      this.rowSize := rowSize;
      count := new nat[NUM_LOCKS](i => 0);
    }

    /**
     The mutexes that guard the given rows, without duplicates and in ascending order: two threads
     that lock their results front to back do so in one common order.
     */
    method Mutexes(entries: seq<nat>) returns (result: seq<nat>)
      requires Valid()
      modifies count
      ensures StrictlyAscending(result)
      ensures forall i :: i in result <==> exists k :: 0 <= k < |entries| && Index(entries[k], rowSize) == i
      ensures result == Pickets(entries, rowSize)
      ensures forall i :: 0 <= i < NUM_LOCKS ==> count[i] == old(count[i]) + if i in result then 1 else 0
    {
      var mutexNums := new nat[|entries|](i => 0);
      var items := 0;
      while items < |entries|
        invariant items <= |entries| == mutexNums.Length
        invariant forall k :: 0 <= k < items ==> mutexNums[k] == Index(entries[k], rowSize)
        invariant fresh(mutexNums) && forall i :: 0 <= i < NUM_LOCKS ==> count[i] == old(count[i])
      {
        mutexNums[items] := entries[items] / rowSize % NUM_LOCKS;
        items := items + 1;
      }
      assert mutexNums[..] == seq(|entries|, k requires 0 <= k < |entries| => Index(entries[k], rowSize));
      result := Unique(Sort(mutexNums[..]));
      assert result == Pickets(entries, rowSize);
      CountUses(result);
    }

    method CountUses(result: seq<nat>)
      requires Valid() && StrictlyAscending(result) && forall i :: i in result ==> i < NUM_LOCKS
      modifies count
      ensures forall i :: 0 <= i < NUM_LOCKS ==> count[i] == old(count[i]) + if i in result then 1 else 0
    {
      for i := 0 to |result|
        invariant forall k :: 0 <= k < NUM_LOCKS ==> count[k] == old(count[k]) + if k in result[..i] then 1 else 0
      {
        assert result[i] in result;
        assert result[..i + 1] == result[..i] + [result[i]];
        count[result[i]] := count[result[i]] + 1;
      }
      assert result[..|result|] == result;
    }
  }
}
