// Triangle counting and the local clustering coefficient (algorithm/LCC.cpp), on one thread.
module LCC {
  import opened Counting
  import opened Hops
  import opened Sorting

  // An undirected graph whose adjacency lists repeat no vertex.
  ghost predicate Undirected(adj: Graph) {
    && Closed(adj) && Symmetric(adj)
    && forall u, i, j :: 0 <= u < |adj| && 0 <= i < j < |adj[u]| ==> adj[u][i] != adj[u][j]
  }

  // ---- The orientation ----

  // Edges go from lower to higher degree, then from lower to higher id.
  predicate Before(adj: Graph, u: nat, v: nat) {
    u < |adj| && v < |adj| && (|adj[u]| < |adj[v]| || (|adj[u]| == |adj[v]| && u < v))
  }

  lemma StrictTotalOrder(adj: Graph, u: nat, v: nat, w: nat)
    requires u < |adj| && v < |adj| && w < |adj|
    ensures !Before(adj, u, u)
    ensures u != v ==> (Before(adj, u, v) <==> !Before(adj, v, u))
    ensures Before(adj, u, v) && Before(adj, v, w) ==> Before(adj, u, w)
  {
  }

  datatype Triple = Triple(u: nat, v: nat, w: nat)

  // A triangle, listed along the orientation.
  predicate Apex(adj: Graph, t: Triple) {
    Edge(adj, t.u, t.v) && Edge(adj, t.u, t.w) && Edge(adj, t.v, t.w) && Before(adj, t.u, t.v) && Before(adj, t.v, t.w)
  }

  // ---- The reference: adjacent pairs of neighbours ----

  predicate Closes(adj: Graph, x: nat, y: nat, z: nat) {
    x != y && x != z && y != z && Edge(adj, x, y) && Edge(adj, x, z) && Edge(adj, y, z)
  }

  // Ordered pairs of neighbours of x that are adjacent to each other: each triangle through x twice.
  ghost function Pairs(adj: Graph, x: nat): set<(nat, nat)> {
    set y: nat, z: nat | y < |adj| && z < |adj| && Closes(adj, x, y, z) :: (y, z)
  }

  ghost function Triangles(adj: Graph): set<Triple> {
    set u: nat, v: nat, w: nat | u < |adj| && v < |adj| && w < |adj| && Apex(adj, Triple(u, v, w)) :: Triple(u, v, w)
  }

  predicate On(t: Triple, x: nat) {
    t.u == x || t.v == x || t.w == x
  }

  ghost function Through(found: set<Triple>, x: nat): set<Triple> {
    set t | t in found && On(t, x)
  }

  // ---- Each triangle through x is two of its pairs ----

  lemma {:induction false} InjectionBound<A, B>(s: set<A>, t: set<B>, f: A -> B)
    requires forall a :: a in s ==> f(a) in t
    requires forall a, b :: a in s && b in s && f(a) == f(b) ==> a == b
    ensures |s| <= |t|
  {
    if s != {} {
      var a :| a in s;
      InjectionBound(s - {a}, t - {f(a)}, f);
    }
  }

  // The pairs listed along the orientation, and the others.
  ghost function Upward(adj: Graph, x: nat): set<(nat, nat)> {
    set p | p in Pairs(adj, x) && Before(adj, p.0, p.1)
  }

  ghost function Downward(adj: Graph, x: nat): set<(nat, nat)> {
    set p | p in Pairs(adj, x) && Before(adj, p.1, p.0)
  }

  function Swap(p: (nat, nat)): (nat, nat) {
    (p.1, p.0)
  }

  // x put in its place among y and z, which are in order.
  function Arrange(adj: Graph, x: nat, p: (nat, nat)): Triple {
    if Before(adj, x, p.0) then Triple(x, p.0, p.1)
    else if Before(adj, x, p.1) then Triple(p.0, x, p.1)
    else Triple(p.0, p.1, x)
  }

  // The other two vertices of a triple.
  function Others(x: nat, t: Triple): (nat, nat) {
    if t.u == x then (t.v, t.w) else if t.v == x then (t.u, t.w) else (t.u, t.v)
  }

  lemma UpwardArranges(adj: Graph, x: nat, p: (nat, nat))
    requires Undirected(adj) && p in Upward(adj, x)
    ensures Arrange(adj, x, p) in Through(Triangles(adj), x) && Others(x, Arrange(adj, x, p)) == p
  {
    var y, z := p.0, p.1;
    assert Edge(adj, y, x) && Edge(adj, z, x) && Edge(adj, z, y);
    assert Apex(adj, Arrange(adj, x, p));
  }

  lemma ThroughSplits(adj: Graph, x: nat, t: Triple)
    requires Undirected(adj) && t in Through(Triangles(adj), x)
    ensures Others(x, t) in Upward(adj, x) && Arrange(adj, x, Others(x, t)) == t
  {
    assert Apex(adj, t);
    assert Edge(adj, t.v, t.u) && Edge(adj, t.w, t.u) && Edge(adj, t.w, t.v);
    var p := Others(x, t);
    assert Closes(adj, x, p.0, p.1);
  }

  lemma UpwardIsThrough(adj: Graph, x: nat)
    requires Undirected(adj)
    ensures |Upward(adj, x)| == |Through(Triangles(adj), x)|
  {
    forall p | p in Upward(adj, x)
      ensures Arrange(adj, x, p) in Through(Triangles(adj), x) && Others(x, Arrange(adj, x, p)) == p
    {
      UpwardArranges(adj, x, p);
    }
    InjectionBound(Upward(adj, x), Through(Triangles(adj), x), p => Arrange(adj, x, p));
    forall t | t in Through(Triangles(adj), x)
      ensures Others(x, t) in Upward(adj, x) && Arrange(adj, x, Others(x, t)) == t
    {
      ThroughSplits(adj, x, t);
    }
    InjectionBound(Through(Triangles(adj), x), Upward(adj, x), t => Others(x, t));
  }

  lemma SwapIsBalanced(adj: Graph, x: nat)
    requires Undirected(adj)
    ensures |Upward(adj, x)| == |Downward(adj, x)|
  {
    forall p | p in Pairs(adj, x)
      ensures Swap(p) in Pairs(adj, x)
    {
      assert Closes(adj, x, p.0, p.1);
      assert Edge(adj, p.1, p.0);
      assert Closes(adj, x, p.1, p.0);
    }
    InjectionBound(Upward(adj, x), Downward(adj, x), Swap);
    InjectionBound(Downward(adj, x), Upward(adj, x), Swap);
  }

  // Twice the triangles through x are its adjacent ordered pairs of neighbours.
  lemma TwoPairsEach(adj: Graph, x: nat)
    requires Undirected(adj)
    ensures |Pairs(adj, x)| == 2 * |Through(Triangles(adj), x)|
  {
    UpwardIsThrough(adj, x);
    SwapIsBalanced(adj, x);
    assert Pairs(adj, x) == Upward(adj, x) + Downward(adj, x);
    assert Upward(adj, x) !! Downward(adj, x);
  }

  // ---- Counting ----

  // Every counter is twice the number of triangles found so far through its vertex.
  ghost predicate Counted(found: set<Triple>, tri: seq<nat>) {
    forall x :: 0 <= x < |tri| ==> tri[x] == 2 * |Through(found, x)|
  }

  function Sum(s: seq<nat>, n: nat): nat
    requires n <= |s|
  {
    if n == 0 then 0 else Sum(s, n - 1) + s[n - 1]
  }

  lemma {:induction false} SumUpdate(s: seq<nat>, n: nat, i: nat, x: nat)
    requires n <= |s| && i < |s|
    ensures Sum(s[i := s[i] + x], n) == Sum(s, n) + if i < n then x else 0
  {
    if n > 0 {
      SumUpdate(s, n - 1, i, x);
    }
  }

  function AddTwo(s: seq<nat>, i: nat): (r: seq<nat>)
    requires i < |s|
    ensures |r| == |s|
  {
    s[i := s[i] + 2]
  }

  lemma SumAddTwo(s: seq<nat>, i: nat)
    requires i < |s|
    ensures Sum(AddTwo(s, i), |s|) == Sum(s, |s|) + 2
  {
    SumUpdate(s, |s|, i, 2);
  }

  // The three counters of t go up by two.
  function Raise(tri: seq<nat>, t: Triple): (r: seq<nat>)
    requires t.u < |tri| && t.v < |tri| && t.w < |tri|
    ensures |r| == |tri|
  {
    AddTwo(AddTwo(AddTwo(tri, t.u), t.v), t.w)
  }

  lemma SumRaise(tri: seq<nat>, t: Triple)
    requires t.u < |tri| && t.v < |tri| && t.w < |tri|
    ensures Sum(Raise(tri, t), |tri|) == Sum(tri, |tri|) + 6
  {
    SumAddTwo(tri, t.u);
    SumAddTwo(AddTwo(tri, t.u), t.v);
    SumAddTwo(AddTwo(AddTwo(tri, t.u), t.v), t.w);
  }

  lemma ThroughGrows(found: set<Triple>, t: Triple, x: nat)
    requires t !in found
    ensures |Through(found + {t}, x)| == |Through(found, x)| + if On(t, x) then 1 else 0
  {
    assert Through(found + {t}, x) == if On(t, x) then Through(found, x) + {t} else Through(found, x);
  }

  lemma RaiseCounts(found: set<Triple>, tri: seq<nat>, t: Triple)
    requires Counted(found, tri) && t !in found
    requires t.u < |tri| && t.v < |tri| && t.w < |tri| && t.u != t.v && t.u != t.w && t.v != t.w
    ensures Counted(found + {t}, Raise(tri, t))
  {
    forall x | 0 <= x < |tri|
      ensures Raise(tri, t)[x] == 2 * |Through(found + {t}, x)|
    {
      ThroughGrows(found, t, x);
      assert Raise(tri, t)[x] == tri[x] + if On(t, x) then 2 else 0;
    }
  }

  // forward[u]: the neighbours u points to, in ascending order.
  ghost predicate IsForward(adj: Graph, u: nat, fu: seq<nat>) {
    u < |adj| && StrictlyAscending(fu) && forall v :: v in fu <==> Edge(adj, u, v) && Before(adj, u, v)
  }

  // fu lists those of the first i neighbours that u points to.
  ghost predicate Oriented(adj: Graph, u: nat, neighbours: seq<nat>, i: nat, fu: seq<nat>) {
    && i <= |neighbours| && StrictlyAscending(fu)
    && (forall v :: v in fu ==> Before(adj, u, v) && v in neighbours[..i])
    && (forall m :: 0 <= m < i && Before(adj, u, neighbours[m]) ==> neighbours[m] in fu)
  }

  lemma OrientOne(adj: Graph, u: nat, neighbours: seq<nat>, i: nat, fu: seq<nat>)
    requires Oriented(adj, u, neighbours, i, fu) && StrictlyAscending(neighbours) && i < |neighbours|
    ensures Oriented(adj, u, neighbours, i + 1, if Before(adj, u, neighbours[i]) then fu + [neighbours[i]] else fu)
  {
    var v := neighbours[i];
    assert neighbours[..i + 1] == neighbours[..i] + [v];
    forall a | 0 <= a < |fu|
      ensures fu[a] < v
    {
      assert fu[a] in fu;
    }
  }

  method Orient(adj: Graph, u: nat) returns (fu: seq<nat>)
    requires Undirected(adj) && u < |adj|
    ensures IsForward(adj, u, fu)
  {
    var neighbours := Sort(adj[u]);
    DistinctSortsStrictly(adj[u]);
    SameMembers(adj[u], neighbours);
    fu := [];
    for i := 0 to |neighbours|
      invariant Oriented(adj, u, neighbours, i, fu)
    {
      var v := neighbours[i];
      assert v in adj[u];
      OrientOne(adj, u, neighbours, i, fu);
      if |adj[u]| < |adj[v]| || (|adj[u]| == |adj[v]| && u < v) {
        fu := fu + [v];
      }
    }
    assert neighbours[..|neighbours|] == neighbours;
  }

  // Positions i and j of the merge: everything passed on one side is below what is left on the other.
  ghost predicate Merging(fu: seq<nat>, fv: seq<nat>, i: nat, j: nat) {
    && i <= |fu| && j <= |fv|
    && (forall a, b :: 0 <= a < i && j <= b < |fv| ==> fu[a] < fv[b])
    && (forall a, b :: i <= a < |fu| && 0 <= b < j ==> fv[b] < fu[a])
  }

  ghost predicate Passed(s: seq<nat>, i: nat, w: nat) {
    exists a :: 0 <= a < i && a < |s| && s[a] == w
  }

  // found has grown by the common successors passed by the merge.
  ghost predicate Grown(before: set<Triple>, found: set<Triple>, u: nat, v: nat, fu: seq<nat>, fv: seq<nat>, i: nat,
                        j: nat) {
    forall t :: t in found <==> t in before || (t.u == u && t.v == v && Passed(fu, i, t.w) && Passed(fv, j, t.w))
  }

  lemma MergeEnds(fu: seq<nat>, fv: seq<nat>, i: nat, j: nat, w: nat)
    requires Merging(fu, fv, i, j) && (i == |fu| || j == |fv|)
    ensures Passed(fu, i, w) && Passed(fv, j, w) <==> w in fu && w in fv
  {
    if w in fu && w in fv {
      var a :| 0 <= a < |fu| && fu[a] == w;
      var b :| 0 <= b < |fv| && fv[b] == w;
      assert a < i && b < j;
    }
  }

  // The two-pointer loop on one oriented edge.
  method Intersect(adj: Graph, u: nat, v: nat, fu: seq<nat>, fv: seq<nat>, triangles: array<nat>,
                   ghost before: set<Triple>)
    returns (ghost found: set<Triple>)
    requires Undirected(adj) && triangles.Length == |adj| && IsForward(adj, u, fu) && IsForward(adj, v, fv) && v in fu
    requires Counted(before, triangles[..]) && forall t :: t in before ==> t.u != u || t.v != v
    modifies triangles
    ensures Counted(found, triangles[..])
    ensures Sum(triangles[..], |adj|) - 6 * |found| == old(Sum(triangles[..], |adj|)) - 6 * |before|
    ensures forall t :: t in found <==> t in before || (t.u == u && t.v == v && t.w in fu && t.w in fv)
  {
    found := before;
    var i, j := 0, 0;
    while i < |fu| && j < |fv|
      invariant Merging(fu, fv, i, j) && Grown(before, found, u, v, fu, fv, i, j)
      invariant Counted(found, triangles[..])
      invariant Sum(triangles[..], |adj|) - 6 * |found| == old(Sum(triangles[..], |adj|)) - 6 * |before|
      decreases |fu| - i + |fv| - j
    {
      if fu[i] < fv[j] {
        PassLower(before, found, u, v, fu, fv, i, j);
        i := i + 1;
      } else if fu[i] > fv[j] {
        PassHigher(before, found, u, v, fu, fv, i, j);
        j := j + 1;
      } else {
        PassCommon(before, found, u, v, fu, fv, i, j);
        found := CountOne(adj, u, v, fu[i], triangles, found);
        i, j := i + 1, j + 1;
      }
    }
    forall t
      ensures t in found <==> t in before || (t.u == u && t.v == v && t.w in fu && t.w in fv)
    {
      MergeEnds(fu, fv, i, j, t.w);
    }
  }

  lemma PassLower(before: set<Triple>, found: set<Triple>, u: nat, v: nat, fu: seq<nat>, fv: seq<nat>, i: nat, j: nat)
    requires StrictlyAscending(fu) && StrictlyAscending(fv) && Merging(fu, fv, i, j)
    requires Grown(before, found, u, v, fu, fv, i, j) && i < |fu| && j < |fv| && fu[i] < fv[j]
    ensures Merging(fu, fv, i + 1, j) && Grown(before, found, u, v, fu, fv, i + 1, j)
  {
    forall w
      ensures Passed(fu, i + 1, w) && Passed(fv, j, w) <==> Passed(fu, i, w) && Passed(fv, j, w)
    {
    }
  }

  lemma PassHigher(before: set<Triple>, found: set<Triple>, u: nat, v: nat, fu: seq<nat>, fv: seq<nat>, i: nat, j: nat)
    requires StrictlyAscending(fu) && StrictlyAscending(fv) && Merging(fu, fv, i, j)
    requires Grown(before, found, u, v, fu, fv, i, j) && i < |fu| && j < |fv| && fv[j] < fu[i]
    ensures Merging(fu, fv, i, j + 1) && Grown(before, found, u, v, fu, fv, i, j + 1)
  {
    forall w
      ensures Passed(fu, i, w) && Passed(fv, j + 1, w) <==> Passed(fu, i, w) && Passed(fv, j, w)
    {
    }
  }

  lemma PassCommon(before: set<Triple>, found: set<Triple>, u: nat, v: nat, fu: seq<nat>, fv: seq<nat>, i: nat, j: nat)
    requires StrictlyAscending(fu) && StrictlyAscending(fv) && Merging(fu, fv, i, j)
    requires Grown(before, found, u, v, fu, fv, i, j) && i < |fu| && j < |fv| && fu[i] == fv[j]
    requires forall t :: t in before ==> t.u != u || t.v != v
    ensures Merging(fu, fv, i + 1, j + 1) && Triple(u, v, fu[i]) !in found
    ensures Grown(before, found + {Triple(u, v, fu[i])}, u, v, fu, fv, i + 1, j + 1)
  {
    forall w
      ensures Passed(fu, i + 1, w) && Passed(fv, j + 1, w) <==> w == fu[i] || (Passed(fu, i, w) && Passed(fv, j, w))
    {
    }
  }

  method CountOne(adj: Graph, u: nat, v: nat, w: nat, triangles: array<nat>, ghost before: set<Triple>)
    returns (ghost found: set<Triple>)
    requires triangles.Length == |adj| && Apex(adj, Triple(u, v, w)) && Closed(adj)
    requires Counted(before, triangles[..]) && Triple(u, v, w) !in before
    modifies triangles
    ensures found == before + {Triple(u, v, w)} && Counted(found, triangles[..])
    ensures Sum(triangles[..], |adj|) - 6 * |found| == old(Sum(triangles[..], |adj|)) - 6 * |before|
  {
    ghost var t, tri := Triple(u, v, w), triangles[..];
    RaiseCounts(before, tri, t);
    SumRaise(tri, t);
    triangles[u] := triangles[u] + 2;
    triangles[v] := triangles[v] + 2;
    triangles[w] := triangles[w] + 2;
    assert triangles[..] == Raise(tri, t);
    found := before + {t};
  }

  // ---- The whole count ----

  // The triangles whose first vertex is below u, and those of u whose second is among the first k.
  ghost predicate FoundTo(adj: Graph, found: set<Triple>, u: nat, fu: seq<nat>, k: nat) {
    forall t :: t in found <==> Apex(adj, t) && (t.u < u || (t.u == u && Passed(fu, k, t.v)))
  }

  lemma EdgeCounted(adj: Graph, before: set<Triple>, found: set<Triple>, u: nat, fu: seq<nat>, fv: seq<nat>, k: nat)
    requires Closed(adj) && IsForward(adj, u, fu) && k < |fu| && IsForward(adj, fu[k], fv)
    requires FoundTo(adj, before, u, fu, k)
    requires forall t :: t in found <==> t in before || (t.u == u && t.v == fu[k] && t.w in fu && t.w in fv)
    ensures FoundTo(adj, found, u, fu, k + 1)
  {
    forall t
      ensures t in found <==> Apex(adj, t) && (t.u < u || (t.u == u && Passed(fu, k + 1, t.v)))
    {
      assert Passed(fu, k + 1, t.v) <==> Passed(fu, k, t.v) || t.v == fu[k];
      if t.u == u && t.v == fu[k] {
        assert fu[k] in fu;
        assert Apex(adj, t) <==> t.w in fu && t.w in fv;
      }
    }
  }

  // All oriented edges leaving u.
  method CountFrom(adj: Graph, u: nat, forward: seq<seq<nat>>, triangles: array<nat>, ghost before: set<Triple>)
    returns (ghost found: set<Triple>)
    requires Undirected(adj) && triangles.Length == |adj| == |forward| && u < |adj|
    requires forall x :: 0 <= x < |adj| ==> IsForward(adj, x, forward[x])
    requires Counted(before, triangles[..]) && FoundTo(adj, before, u, forward[u], 0)
    requires Sum(triangles[..], |adj|) == 6 * |before|
    modifies triangles
    ensures Counted(found, triangles[..]) && FoundTo(adj, found, u, forward[u], |forward[u]|)
    ensures Sum(triangles[..], |adj|) == 6 * |found|
  {
    found := before;
    var fu := forward[u];
    for k := 0 to |fu|
      invariant Counted(found, triangles[..]) && FoundTo(adj, found, u, fu, k)
      invariant Sum(triangles[..], |adj|) == 6 * |found|
    {
      assert fu[k] in fu;
      ghost var was := found;
      found := Intersect(adj, u, fu[k], fu, forward[fu[k]], triangles, found);
      EdgeCounted(adj, was, found, u, fu, forward[fu[k]], k);
    }
  }

  lemma NextVertex(adj: Graph, found: set<Triple>, u: nat, forward: seq<seq<nat>>)
    requires |forward| == |adj| && u < |adj| && forall x :: 0 <= x < |adj| ==> IsForward(adj, x, forward[x])
    requires FoundTo(adj, found, u, forward[u], |forward[u]|)
    ensures u + 1 < |adj| ==> FoundTo(adj, found, u + 1, forward[u + 1], 0)
    ensures u + 1 == |adj| ==> forall t :: t in found <==> Apex(adj, t)
  {
    forall t | Apex(adj, t) && t.u == u
      ensures Passed(forward[u], |forward[u]|, t.v)
    {
      assert t.v in forward[u];
    }
  }

  // r is the share that `part` has in the ordered pairs of distinct ones among d neighbours.
  predicate IsShare(r: real, part: nat, d: nat) {
    if d >= 2 then r * (d * (d - 1)) as real == part as real else r == 0.0
  }

  // The score of a vertex: the share of its neighbour pairs that are adjacent.
  function Score(triangles: nat, degree: nat): (r: real)
    ensures IsShare(r, triangles, degree)
    ensures triangles <= degree * (degree - 1) ==> 0.0 <= r <= 1.0
  {
    if degree >= 2 then
      ScoreInRange(triangles, degree);
      triangles as real / (degree as real * (degree - 1) as real)
    else 0.0
  }

  lemma ScoreInRange(t: nat, d: nat)
    requires d >= 2
    ensures d as real * (d - 1) as real == (d * (d - 1)) as real > 0.0
    ensures t as real / (d as real * (d - 1) as real) * (d * (d - 1)) as real == t as real
    ensures t <= d * (d - 1) ==> 0.0 <= t as real / (d as real * (d - 1) as real) <= 1.0
  {
    var m := d as real * (d - 1) as real;
    assert m == (d * (d - 1)) as real;
    assert d * (d - 1) >= 2;
    if t <= d * (d - 1) {
      assert t as real <= m;
      assert t as real / m <= m / m;
    }
  }

  // Ordered pairs of distinct elements of s.
  ghost function DistinctPairs(s: set<nat>): set<(nat, nat)> {
    set y, z | y in s && z in s && y != z :: (y, z)
  }

  ghost function Row(x: nat, s: set<nat>): set<(nat, nat)> {
    set z | z in s :: (x, z)
  }

  ghost function Column(s: set<nat>, x: nat): set<(nat, nat)> {
    set y | y in s :: (y, x)
  }

  lemma RowSize(s: set<nat>, x: nat)
    ensures |Row(x, s)| == |s| == |Column(s, x)|
  {
    InjectionBound(s, Row(x, s), z => (x, z));
    InjectionBound(Row(x, s), s, (p: (nat, nat)) => p.1);
    InjectionBound(s, Column(s, x), y => (y, x));
    InjectionBound(Column(s, x), s, (p: (nat, nat)) => p.0);
  }

  lemma PairsSplit(rest: set<nat>, x: nat)
    requires x !in rest
    ensures DistinctPairs(rest + {x}) == DistinctPairs(rest) + Row(x, rest) + Column(rest, x)
  {
    forall p
      ensures p in DistinctPairs(rest + {x}) <==> p in DistinctPairs(rest) || p in Row(x, rest) || p in Column(rest, x)
    {
      assert p == (p.0, p.1);
    }
  }

  lemma PairsGrow(rest: set<nat>, x: nat)
    requires x !in rest
    ensures |DistinctPairs(rest + {x})| == |DistinctPairs(rest)| + 2 * |rest|
  {
    PairsSplit(rest, x);
    RowSize(rest, x);
    assert DistinctPairs(rest) !! Row(x, rest);
    assert (DistinctPairs(rest) + Row(x, rest)) !! Column(rest, x);
  }

  function PairCount(n: nat): nat {
    if n == 0 then 0 else PairCount(n - 1) + 2 * (n - 1)
  }

  lemma {:induction false} PairCountIs(n: nat)
    ensures PairCount(n) == n * (n - 1)
  {
    if n > 0 {
      PairCountIs(n - 1);
    }
  }

  lemma {:induction false} DistinctPairsSize(s: set<nat>)
    ensures |DistinctPairs(s)| == PairCount(|s|)
  {
    if s == {} {
      assert DistinctPairs(s) == {};
    } else {
      var x :| x in s;
      DistinctPairsSize(s - {x});
      PairsGrow(s - {x}, x);
      assert s - {x} + {x} == s;
    }
  }

  // A vertex has at most as many adjacent pairs as pairs of neighbours.
  lemma PairsBound(adj: Graph, x: nat)
    requires Undirected(adj) && x < |adj|
    ensures |Pairs(adj, x)| <= |adj[x]| * (|adj[x]| - 1)
  {
    var s := Keys(adj[x]);
    Pigeonhole(adj[x]);
    DistinctPairsSize(s);
    PairCountIs(|s|);
    forall p | p in Pairs(adj, x)
      ensures p in DistinctPairs(s)
    {
      assert Closes(adj, x, p.0, p.1);
    }
    InjectionBound(Pairs(adj, x), DistinctPairs(s), (p: (nat, nat)) => p);
  }

  // compute_lcc: each counter is the number of adjacent ordered pairs of neighbours, that is twice
  // the triangles through the vertex; together they are six times the number of triangles.
  method ComputeLcc(adj: Graph) returns (triangles: array<nat>, scores: seq<real>)
    requires Undirected(adj)
    ensures triangles.Length == |adj| == |scores|
    ensures forall x :: 0 <= x < |adj| ==>
              triangles[x] == |Pairs(adj, x)| == 2 * |Through(Triangles(adj), x)| <= |adj[x]| * (|adj[x]| - 1)
    ensures Sum(triangles[..], |adj|) == 6 * |Triangles(adj)|
    ensures forall x :: 0 <= x < |adj| ==> IsShare(scores[x], |Pairs(adj, x)|, |adj[x]|) && 0.0 <= scores[x] <= 1.0
  {
    var forward: seq<seq<nat>> := [];
    for u := 0 to |adj|
      invariant |forward| == u && forall x :: 0 <= x < u ==> IsForward(adj, x, forward[x])
    {
      var fu := Orient(adj, u);
      forward := forward + [fu];
    }
    triangles := new nat[|adj|](_ => 0);
    ghost var found := CountAll(adj, forward, triangles);
    FoundAll(adj, found);
    CountsMean(adj, triangles[..]);
    scores := Scores(adj, triangles);
  }

  method Scores(adj: Graph, triangles: array<nat>) returns (scores: seq<real>)
    requires triangles.Length == |adj| && forall x :: 0 <= x < |adj| ==> triangles[x] <= |adj[x]| * (|adj[x]| - 1)
    ensures |scores| == |adj|
    ensures forall x :: 0 <= x < |adj| ==> IsShare(scores[x], triangles[x], |adj[x]|) && 0.0 <= scores[x] <= 1.0
  {
    scores := [];
    for v := 0 to |adj|
      invariant |scores| == v
      invariant forall x :: 0 <= x < v ==> IsShare(scores[x], triangles[x], |adj[x]|) && 0.0 <= scores[x] <= 1.0
    {
      scores := scores + [Score(triangles[v], |adj[v]|)];
    }
  }

  method CountAll(adj: Graph, forward: seq<seq<nat>>, triangles: array<nat>) returns (ghost found: set<Triple>)
    requires Undirected(adj) && triangles.Length == |adj| == |forward|
    requires forall x :: 0 <= x < |adj| ==> IsForward(adj, x, forward[x])
    requires forall x :: 0 <= x < |adj| ==> triangles[x] == 0
    modifies triangles
    ensures Counted(found, triangles[..]) && Sum(triangles[..], |adj|) == 6 * |found|
    ensures forall t :: t in found <==> Apex(adj, t)
  {
    found := {};
    ZeroCounts(triangles[..], |adj|);
    for u := 0 to |adj|
      invariant Counted(found, triangles[..]) && Sum(triangles[..], |adj|) == 6 * |found|
      invariant u < |adj| ==> FoundTo(adj, found, u, forward[u], 0)
      invariant u == |adj| ==> forall t :: t in found <==> Apex(adj, t)
    {
      found := CountFrom(adj, u, forward, triangles, found);
      NextVertex(adj, found, u, forward);
    }
  }

  lemma {:induction false} ZeroCounts(tri: seq<nat>, n: nat)
    requires n <= |tri| && forall x :: 0 <= x < |tri| ==> tri[x] == 0
    ensures Counted({}, tri) && Sum(tri, n) == 0
  {
    forall x | 0 <= x < |tri|
      ensures |Through({}, x)| == 0
    {
      assert Through({}, x) == {};
    }
    if n > 0 {
      ZeroCounts(tri, n - 1);
    }
  }

  lemma FoundAll(adj: Graph, found: set<Triple>)
    requires Closed(adj) && forall t :: t in found <==> Apex(adj, t)
    ensures found == Triangles(adj)
  {
    forall t
      ensures t in found <==> t in Triangles(adj)
    {
      assert Apex(adj, t) ==> t == Triple(t.u, t.v, t.w) && t.u < |adj| && t.v < |adj| && t.w < |adj|;
    }
  }

  // What the counters mean once every triangle has been found.
  lemma CountsMean(adj: Graph, tri: seq<nat>)
    requires Undirected(adj) && Counted(Triangles(adj), tri) && |tri| == |adj|
    ensures forall x :: 0 <= x < |adj| ==>
              tri[x] == |Pairs(adj, x)| == 2 * |Through(Triangles(adj), x)| <= |adj[x]| * (|adj[x]| - 1)
  {
    forall x | 0 <= x < |adj|
      ensures tri[x] == |Pairs(adj, x)| == 2 * |Through(Triangles(adj), x)| <= |adj[x]| * (|adj[x]| - 1)
    {
      TwoPairsEach(adj, x);
      PairsBound(adj, x);
    }
  }
}
