/** Ordered std::set operations over finite sets of integers. */
module Ordered {

  datatype Option<+T> = None | Some(value: T)

  lemma EmptyOrNot<T>(s: set<T>)
    ensures s == {} || exists y :: y in s
  {
    if forall y :: y !in s {
      assert s == {};
    }
  }

  lemma AnElement<T>(s: set<T>) returns (x: T)
    requires s != {}
    ensures x in s
  {
    EmptyOrNot(s);
    x :| x in s;
  }

  lemma {:induction false} LeastExists(s: set<int>)
    requires s != {}
    ensures exists m :: m in s && forall z :: z in s ==> m <= z
  {
    var x := AnElement(s);
    var rest := s - {x};
    assert forall z :: z in s ==> z == x || z in rest;
    if rest == {} {
      assert x in s && forall z :: z in s ==> x <= z;
    } else {
      LeastExists(rest);
      var m :| m in rest && forall z :: z in rest ==> m <= z;
      var best := if x < m then x else m;
      assert best in s && forall z :: z in s ==> best <= z;
    }
  }

  lemma {:induction false} GreatestExists(s: set<int>)
    requires s != {}
    ensures exists m :: m in s && forall z :: z in s ==> z <= m
  {
    var x := AnElement(s);
    var rest := s - {x};
    assert forall z :: z in s ==> z == x || z in rest;
    if rest == {} {
      assert x in s && forall z :: z in s ==> z <= x;
    } else {
      GreatestExists(rest);
      var m :| m in rest && forall z :: z in rest ==> z <= m;
      var best := if x > m then x else m;
      assert best in s && forall z :: z in s ==> z <= best;
    }
  }

  /** `lower_bound`: the least element that is not below `x`, if there is one. */
  function LowerBound(s: set<int>, x: int): (r: Option<int>)
    ensures r.None? <==> forall z :: z in s ==> z < x
    ensures r.Some? ==> r.value in s && x <= r.value && forall z :: z in s && x <= z ==> r.value <= z
  {
    var above := set z | z in s && x <= z;
    if above == {} then
      assert forall z :: z in s && x <= z ==> z in above;
      None
    else
      LeastExists(above);
      var m :| m in above && forall z :: z in above ==> m <= z;
      assert forall z :: z in s && x <= z ==> z in above;
      Some(m)
  }

  /** The element just before `x` in iteration order: the greatest one below it. */
  function Before(s: set<int>, x: int): (r: Option<int>)
    ensures r.None? <==> forall z :: z in s ==> x <= z
    ensures r.Some? ==> r.value in s && r.value < x && forall z :: z in s && z < x ==> z <= r.value
  {
    var below := set z | z in s && z < x;
    if below == {} then
      assert forall z :: z in s && z < x ==> z in below;
      None
    else
      GreatestExists(below);
      var m :| m in below && forall z :: z in below ==> z <= m;
      assert forall z :: z in s && z < x ==> z in below;
      Some(m)
  }

  lemma {:induction false} SubsetCardinality<T>(a: set<T>, b: set<T>)
    requires a <= b
    ensures |a| <= |b|
    ensures a != b ==> |a| < |b|
  {
    assert b == a + (b - a);
    if b - a != {} {
      var x := AnElement(b - a);
      assert |b - a| > 0;
    } else {
      assert a == b;
    }
  }

  /** The integers `0, .., n - 1`. */
  function Upto(n: nat): (s: set<int>)
    ensures |s| == n
    ensures forall i :: i in s <==> 0 <= i < n
  {
    if n == 0 then {} else Upto(n - 1) + {n - 1}
  }
}
