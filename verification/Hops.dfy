// Hop distance in a graph given by adjacency lists: the reference for breadth-first search.
module Hops {
  type Graph = seq<seq<nat>>

  ghost predicate Closed(adj: Graph) {
    forall u, i :: 0 <= u < |adj| && 0 <= i < |adj[u]| ==> adj[u][i] < |adj|
  }

  predicate Edge(adj: Graph, u: nat, v: nat) {
    u < |adj| && v in adj[u]
  }

  ghost predicate Symmetric(adj: Graph) {
    forall u, v {:trigger Edge(adj, u, v)} :: Edge(adj, u, v) ==> Edge(adj, v, u)
  }

  // v can be reached from root in at most k hops.
  ghost predicate Within(adj: Graph, root: nat, k: nat, v: nat) {
    if k == 0 then v == root
    else Within(adj, root, k - 1, v) || exists u {:trigger Edge(adj, u, v)} ::
        Within(adj, root, k - 1, u) && Edge(adj, u, v)
  }

  ghost predicate IsWalk(adj: Graph, root: nat, p: seq<nat>, v: nat) {
    p != [] && p[0] == root && p[|p| - 1] == v && forall i :: 0 < i < |p| ==> Edge(adj, p[i - 1], p[i])
  }

  // The partner: at most k hops means a walk of at most k edges.
  lemma {:induction false} WithinHasWalk(adj: Graph, root: nat, k: nat, v: nat) returns (p: seq<nat>)
    requires Within(adj, root, k, v)
    ensures IsWalk(adj, root, p, v) && |p| <= k + 1
  {
    if k == 0 {
      p := [root];
    } else if Within(adj, root, k - 1, v) {
      p := WithinHasWalk(adj, root, k - 1, v);
    } else {
      var u :| Within(adj, root, k - 1, u) && Edge(adj, u, v);
      var q := WithinHasWalk(adj, root, k - 1, u);
      p := q + [v];
    }
  }

  lemma {:induction false} WalkIsWithin(adj: Graph, root: nat, p: seq<nat>, v: nat)
    requires IsWalk(adj, root, p, v)
    ensures Within(adj, root, |p| - 1, v)
  {
    if |p| > 1 {
      var q := p[..|p| - 1];
      WalkIsWithin(adj, root, q, q[|q| - 1]);
      assert Edge(adj, q[|q| - 1], v);
    }
  }

  lemma {:induction false} WithinGrows(adj: Graph, root: nat, k: nat, m: nat, v: nat)
    requires Within(adj, root, k, v) && k <= m
    ensures Within(adj, root, m, v)
  {
    if k < m {
      WithinGrows(adj, root, k, m - 1, v);
    }
  }

  lemma {:induction false} RootIsWithin(adj: Graph, root: nat, k: nat)
    ensures Within(adj, root, k, root)
  {
    if k > 0 {
      RootIsWithin(adj, root, k - 1);
    }
  }

  lemma {:induction false} WithinIsVertex(adj: Graph, root: nat, k: nat, v: nat)
    requires Closed(adj) && root < |adj| && Within(adj, root, k, v)
    ensures v < |adj|
  {
    if k > 0 && Within(adj, root, k - 1, v) {
      WithinIsVertex(adj, root, k - 1, v);
    }
  }

  // If one more hop reaches nothing new, no number of hops does.
  lemma {:induction false} Saturated(adj: Graph, root: nat, k: nat, m: nat, v: nat)
    requires forall x :: Within(adj, root, k + 1, x) ==> Within(adj, root, k, x)
    requires Within(adj, root, m, v)
    ensures Within(adj, root, k, v)
  {
    if m <= k {
      WithinGrows(adj, root, m, k, v);
    } else if Within(adj, root, m - 1, v) {
      Saturated(adj, root, k, m - 1, v);
    } else {
      var u :| Within(adj, root, m - 1, u) && Edge(adj, u, v);
      Saturated(adj, root, k, m - 1, u);
      assert Within(adj, root, k + 1, v);
    }
  }

  // d is the hop distance of v: -1 or any negative number if v cannot be reached.
  ghost predicate IsHopDistance(adj: Graph, root: nat, v: nat, d: int) {
    if d < 0 then forall k :: !Within(adj, root, k, v)
    else Within(adj, root, d, v) && (d > 0 ==> !Within(adj, root, d - 1, v))
  }
}
