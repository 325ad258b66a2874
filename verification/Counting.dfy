// Finite sets of integers and their sizes.

module Counting {

  /** The integers from a to b. */
  function Span(a: int, b: int): (r: set<int>)
    requires a <= b + 1
    ensures forall x :: x in r <==> a <= x <= b
    ensures |r| == b + 1 - a
    decreases b + 1 - a
  {
    if b + 1 == a then {} else Span(a, b - 1) + {b}
  }

  function Elements(ts: seq<int>): (r: set<int>)
    ensures forall x :: x in r <==> x in ts
  {
    if ts == [] then {} else {ts[0]} + Elements(ts[1..])
  }

  predicate Distinct(ts: seq<int>) {
    forall i, j :: 0 <= i < j < |ts| ==> ts[i] != ts[j]
  }

  lemma {:induction false} DistinctSize(ts: seq<int>)
    requires Distinct(ts)
    ensures |Elements(ts)| == |ts|
  {
    if ts != [] {
      DistinctSize(ts[1..]);
      assert ts[0] !in ts[1..];
    }
  }

  lemma SubsetSize(a: set<int>, b: set<int>)
    requires a <= b
    ensures |a| <= |b|
    ensures |a| == |b| <==> a == b
  {
    assert b == a + (b - a);
  }
}
