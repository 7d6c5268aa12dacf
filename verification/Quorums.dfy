// Sets of nodes and majorities.
module Quorums {

  // The nodes 0 to n-1.
  function Nodes(n: nat): (s: set<nat>)
    ensures forall i: nat :: i in s <==> i < n
  {
    if n == 0 then {} else Nodes(n - 1) + {n - 1}
  }

  lemma {:induction false} NodesCount(n: nat)
    ensures |Nodes(n)| == n
  {
    if n > 0 {
      NodesCount(n - 1);
    }
  }

  lemma SubsetCount<T>(a: set<T>, b: set<T>)
    requires a <= b
    ensures |a| <= |b|
  {
    assert b == a + (b - a);
  }

  // Two sets that together have more members than their universe share one.
  lemma Overlap(a: set<nat>, b: set<nat>, n: nat) returns (x: nat)
    requires a <= Nodes(n) && b <= Nodes(n) && |a| + |b| > n
    ensures x in a && x in b
  {
    NodesCount(n);
    SubsetCount(a + b, Nodes(n));
    assert |a + b| == |a| + |b| - |a * b|;
    x :| x in a * b;
  }

  predicate IsMajority(q: set<nat>, n: nat) {
    q <= Nodes(n) && 2 * |q| > n
  }

  predicate IsLeast(ids: set<nat>, i: nat) {
    i in ids && forall j :: j in ids ==> i <= j
  }

  // The least of a set of ids, as sorting finds it.
  method Lowest(ids: set<nat>) returns (least: nat)
    requires ids != {}
    ensures IsLeast(ids, least)
  {
    least :| least in ids;
    var todo := ids - {least};
    while todo != {}
      invariant least in ids && todo <= ids
      invariant forall j :: j in ids && j !in todo ==> least <= j
    {
      var x :| x in todo;
      todo := todo - {x};
      if x < least {
        least := x;
      }
    }
  }
}
