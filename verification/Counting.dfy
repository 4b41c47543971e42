// Sizes of finite collections: what keeps a probe, a queue or a table from overflowing.
module Counting {

  function Keys(t: seq<nat>): set<nat> {
    set x | x in t
  }

  lemma SubsetSize(a: set<nat>, b: set<nat>)
    requires a <= b
    ensures |a| <= |b|
  {
    assert b == a + (b - a);
  }

  lemma {:induction false} Pigeonhole(t: seq<nat>)
    requires forall p, q :: 0 <= p < q < |t| ==> t[p] != t[q]
    ensures |Keys(t)| == |t|
  {
    if t != [] {
      var n := |t| - 1;
      var front := t[..n];
      Pigeonhole(front);
      assert t == front + [t[n]];
      assert Keys(t) == Keys(front) + {t[n]};
      assert t[n] !in front;
    }
  }

  function Below(n: nat): (s: set<nat>)
    ensures |s| == n && forall x: nat :: x in s <==> x < n
  {
    if n == 0 then {} else Below(n - 1) + {n - 1}
  }

  ghost predicate Distinct(q: seq<nat>) {
    forall p, r :: 0 <= p < r < |q| ==> q[p] != q[r]
  }

  // Distinct numbers below n, with one of them missing, are fewer than n.
  lemma RoomFor(q: seq<nat>, n: nat, x: nat)
    requires Distinct(q) && (forall i :: 0 <= i < |q| ==> q[i] < n) && x < n && x !in q
    ensures |q| < n
  {
    Pigeonhole(q);
    SubsetSize(Keys(q), Below(n) - {x});
  }
}
