// Delta-stepping shortest paths (algorithm/SSSP.cpp), on one thread and with natural weights:
// finitely many non-negative doubles become natural numbers when scaled.
module SSSP {

  datatype Arc = Arc(dst: nat, w: nat)
  type Graph = seq<seq<Arc>>
  datatype Dist = Inf | Fin(d: nat)

  ghost predicate Closed(g: Graph) {
    forall u, j :: 0 <= u < |g| && 0 <= j < |g[u]| ==> g[u][j].dst < |g|
  }

  predicate IsArc(g: Graph, u: nat, v: nat, w: nat) {
    u < |g| && Arc(v, w) in g[u]
  }

  // ---- The reference: lengths of walks ----

  // There is a walk of n arcs and length d from s to v.
  ghost predicate Walk(g: Graph, s: nat, v: nat, n: nat, d: nat)
    decreases n
  {
    if n == 0 then v == s && d == 0
    else exists u: nat, w: nat {:trigger IsArc(g, u, v, w)} ::
        IsArc(g, u, v, w) && w <= d && Walk(g, s, u, n - 1, d - w)
  }

  ghost predicate HasWalk(g: Graph, s: nat, v: nat, d: nat) {
    exists n: nat {:trigger Walk(g, s, v, n, d)} :: Walk(g, s, v, n, d)
  }

  ghost predicate IsShortest(g: Graph, s: nat, v: nat, l: Dist) {
    && (l.Fin? ==> HasWalk(g, s, v, l.d))
    && forall d {:trigger HasWalk(g, s, v, d)} :: HasWalk(g, s, v, d) ==> l.Fin? && l.d <= d
  }

  lemma WalkExtends(g: Graph, s: nat, u: nat, v: nat, d: nat, w: nat)
    requires HasWalk(g, s, u, d) && IsArc(g, u, v, w)
    ensures HasWalk(g, s, v, d + w)
  {
    var n: nat :| Walk(g, s, u, n, d);
    assert Walk(g, s, v, n + 1, d + w);
  }

  // ---- Labels ----

  predicate Improves(d: nat, l: Dist) {
    l.Inf? || d < l.d
  }

  // The arc u -> v of weight w cannot improve v.
  predicate Tight(dist: seq<Dist>, u: nat, v: nat, w: nat)
    requires u < |dist| && v < |dist|
  {
    dist[u].Fin? ==> !Improves(dist[u].d + w, dist[v])
  }

  ghost predicate RelaxedTo(g: Graph, dist: seq<Dist>, u: nat, n: nat)
    requires u < |g| == |dist| && Closed(g)
  {
    forall j :: 0 <= j < n && j < |g[u]| ==> Tight(dist, u, g[u][j].dst, g[u][j].w)
  }

  // Every out-edge of u has been relaxed at u's current label.
  ghost predicate Relaxed(g: Graph, dist: seq<Dist>, u: nat)
    requires u < |g| == |dist| && Closed(g)
  {
    RelaxedTo(g, dist, u, |g[u]|)
  }

  ghost predicate Sound(g: Graph, s: nat, dist: seq<Dist>) {
    && |dist| == |g| && s < |g| && dist[s] == Fin(0)
    && forall v {:trigger dist[v]} :: 0 <= v < |dist| && dist[v].Fin? ==> HasWalk(g, s, v, dist[v].d)
  }

  // Once every edge is relaxed, no walk is shorter than the label of its end.
  lemma {:induction false} NoShorterWalk(g: Graph, s: nat, dist: seq<Dist>, v: nat, n: nat, d: nat)
    requires Closed(g) && Sound(g, s, dist) && forall u :: 0 <= u < |g| ==> Relaxed(g, dist, u)
    requires Walk(g, s, v, n, d)
    ensures v < |dist| && dist[v].Fin? && dist[v].d <= d
    decreases n
  {
    if n > 0 {
      var u: nat, w: nat :| IsArc(g, u, v, w) && w <= d && Walk(g, s, u, n - 1, d - w);
      NoShorterWalk(g, s, dist, u, n - 1, d - w);
      var j :| 0 <= j < |g[u]| && g[u][j] == Arc(v, w);
      assert Relaxed(g, dist, u) && Tight(dist, u, g[u][j].dst, g[u][j].w);
    }
  }

  lemma AllShortest(g: Graph, s: nat, dist: seq<Dist>)
    requires Closed(g) && Sound(g, s, dist) && forall u :: 0 <= u < |g| ==> Relaxed(g, dist, u)
    ensures forall v :: 0 <= v < |g| ==> IsShortest(g, s, v, dist[v])
  {
    forall v, d: nat | 0 <= v < |g| && HasWalk(g, s, v, d)
      ensures dist[v].Fin? && dist[v].d <= d
    {
      var n: nat :| Walk(g, s, v, n, d);
      NoShorterWalk(g, s, dist, v, n, d);
    }
  }

  // ---- Bins ----

  function Bin(d: nat, delta: real): (b: nat)
    requires delta > 0.0
  {
    BinNotNegative(d, delta);
    (d as real / delta).Floor
  }

  lemma BinNotNegative(d: nat, delta: real)
    requires delta > 0.0
    ensures (d as real / delta).Floor >= 0
  {
    assert d as real / delta >= 0.0;
  }

  // The test dist >= delta * curr picks exactly the labels in bin curr or above.
  lemma BinAtLeast(d: nat, delta: real, c: nat)
    requires delta > 0.0
    ensures Bin(d, delta) >= c <==> d as real >= delta * c as real
  {
    var q := d as real / delta;
    assert q * delta == d as real;
    if q >= c as real {
      assert q * delta >= c as real * delta;
    } else {
      assert q * delta < c as real * delta;
    }
  }

  lemma BinGrows(d: nat, e: nat, delta: real)
    requires delta > 0.0 && d <= e
    ensures Bin(d, delta) <= Bin(e, delta)
  {
    BinAtLeast(d, delta, Bin(d, delta));
    BinAtLeast(e, delta, Bin(d, delta));
  }

  predicate InBin(bins: seq<seq<nat>>, b: nat, v: nat) {
    b < |bins| && v in bins[b]
  }

  // Grows the bins if needed and adds v to bin b.
  function Push(bins: seq<seq<nat>>, b: nat, v: nat): (r: seq<seq<nat>>)
    ensures |r| >= |bins| && b < |r| && InBin(r, b, v)
    ensures forall i, x :: InBin(bins, i, x) ==> InBin(r, i, x)
    ensures forall i :: 0 <= i < |r| && i != b ==> r[i] == if i < |bins| then bins[i] else []
    ensures forall i, x :: 0 <= i < |r| && x in r[i] ==> x == v || InBin(bins, i, x)
  {
    var grown := if b >= |bins| then bins + seq(b + 1 - |bins|, _ => []) else bins;
    grown[b := grown[b] + [v]]
  }

  // A vertex is relaxed, or waits in the bin of its label, or in what is left of the frontier.
  ghost predicate Covered(g: Graph, dist: seq<Dist>, bins: seq<seq<nat>>, rest: seq<nat>, curr: nat, delta: real,
                          v: nat)
    requires v < |g| == |dist| && Closed(g) && delta > 0.0
  {
    Relaxed(g, dist, v) ||
    (dist[v].Fin? && (InBin(bins, Bin(dist[v].d, delta), v) || (v in rest && Bin(dist[v].d, delta) == curr)))
  }

  // Bins below the current one are empty, and only labelled vertices wait.
  ghost predicate BinsOk(bins: seq<seq<nat>>, curr: nat, dist: seq<Dist>) {
    forall i {:trigger bins[i]} :: 0 <= i < |bins| ==> Labelled(dist, bins[i]) && (bins[i] != [] ==> i >= curr)
  }

  ghost predicate Labelled(dist: seq<Dist>, vs: seq<nat>) {
    forall m :: 0 <= m < |vs| ==> vs[m] < |dist| && dist[vs[m]].Fin?
  }

  // ---- Termination ----

  function CountInf(dist: seq<Dist>, n: nat): nat
    requires n <= |dist|
  {
    if n == 0 then 0 else CountInf(dist, n - 1) + if dist[n - 1].Inf? then 1 else 0
  }

  function SumFin(dist: seq<Dist>, n: nat): nat
    requires n <= |dist|
  {
    if n == 0 then 0 else SumFin(dist, n - 1) + if dist[n - 1].Inf? then 0 else dist[n - 1].d
  }

  predicate Lower(before: seq<Dist>, after: seq<Dist>) {
    CountInf(after, |after|) < CountInf(before, |before|) ||
    (CountInf(after, |after|) == CountInf(before, |before|) && SumFin(after, |after|) < SumFin(before, |before|))
  }

  lemma {:induction false} UpdateCounts(dist: seq<Dist>, n: nat, v: nat, d: nat)
    requires n <= |dist| && v < |dist|
    ensures CountInf(dist[v := Fin(d)], n) == CountInf(dist, n) - if v < n && dist[v].Inf? then 1 else 0
    ensures SumFin(dist[v := Fin(d)], n) == SumFin(dist, n) + if v < n
        then (if dist[v].Inf? then d else d - dist[v].d) else 0
  {
    if n > 0 {
      UpdateCounts(dist, n - 1, v, d);
    }
  }

  lemma ImprovingLowers(dist: seq<Dist>, v: nat, d: nat)
    requires v < |dist| && Improves(d, dist[v])
    ensures Lower(dist, dist[v := Fin(d)])
  {
    UpdateCounts(dist, |dist|, v, d);
  }

  function Entries(bins: seq<seq<nat>>, n: nat): nat
    requires n <= |bins|
  {
    if n == 0 then 0 else Entries(bins, n - 1) + |bins[n - 1]|
  }

  lemma {:induction false} ClearCounts(bins: seq<seq<nat>>, n: nat, b: nat)
    requires n <= |bins| && b < |bins|
    ensures Entries(bins[b := []], n) == Entries(bins, n) - if b < n then |bins[b]| else 0
  {
    if n > 0 {
      ClearCounts(bins, n - 1, b);
    }
  }

  // ---- One relaxation ----

  // The state inside a pass over u's arcs, of which the first j have been relaxed.
  ghost predicate Passing(g: Graph, s: nat, dist: seq<Dist>, bins: seq<seq<nat>>, rest: seq<nat>, curr: nat,
                          delta: real, u: nat, j: nat) {
    && Closed(g) && delta > 0.0 && Sound(g, s, dist) && BinsOk(bins, curr, dist) && u < |g|
    && dist[u].Fin? && Bin(dist[u].d, delta) >= curr && RelaxedTo(g, dist, u, j)
    && forall v: nat :: v < |g| && v != u ==> Covered(g, dist, bins, rest, curr, delta, v)
  }

  lemma LabelFalls(g: Graph, dist: seq<Dist>, x: nat, d: nat, n: nat, u: nat)
    requires Closed(g) && u < |g| == |dist| && x < |g| && x != u && Improves(d, dist[x]) && RelaxedTo(g, dist, u, n)
    ensures RelaxedTo(g, dist[x := Fin(d)], u, n)
  {
    forall j | 0 <= j < n && j < |g[u]|
      ensures Tight(dist[x := Fin(d)], u, g[u][j].dst, g[u][j].w)
    {
      assert Tight(dist, u, g[u][j].dst, g[u][j].w);
    }
  }

  lemma PushKeepsBins(dist: seq<Dist>, bins: seq<seq<nat>>, curr: nat, v: nat, d: nat, b: nat)
    requires BinsOk(bins, curr, dist) && v < |dist| && b >= curr
    ensures BinsOk(Push(bins, b, v), curr, dist[v := Fin(d)])
  {
    var after, more := dist[v := Fin(d)], Push(bins, b, v);
    forall i | 0 <= i < |more|
      ensures Labelled(after, more[i]) && (more[i] != [] ==> i >= curr)
    {
      forall m | 0 <= m < |more[i]|
        ensures more[i][m] < |after| && after[more[i][m]].Fin?
      {
        assert more[i][m] in more[i];
      }
    }
  }

  lemma ImproveStep(g: Graph, s: nat, dist: seq<Dist>, bins: seq<seq<nat>>, rest: seq<nat>, curr: nat, delta: real,
                    u: nat, j: nat)
    requires Passing(g, s, dist, bins, rest, curr, delta, u, j) && j < |g[u]|
    requires Improves(dist[u].d + g[u][j].w, dist[g[u][j].dst])
    ensures var v, d := g[u][j].dst, dist[u].d + g[u][j].w;
            && v != u && Lower(dist, dist[v := Fin(d)])
            && Passing(g, s, dist[v := Fin(d)], Push(bins, Bin(d, delta), v), rest, curr, delta, u, j + 1)
  {
    var v, d := g[u][j].dst, dist[u].d + g[u][j].w;
    var after, more := dist[v := Fin(d)], Push(bins, Bin(d, delta), v);
    assert IsArc(g, u, v, g[u][j].w);
    WalkExtends(g, s, u, v, dist[u].d, g[u][j].w);
    ImprovingLowers(dist, v, d);
    BinGrows(dist[u].d, d, delta);
    LabelFalls(g, dist, v, d, j, u);
    PushKeepsBins(dist, bins, curr, v, d, Bin(d, delta));
    forall x: nat | x < |g| && x != u
      ensures Covered(g, after, more, rest, curr, delta, x)
    {
      assert Covered(g, dist, bins, rest, curr, delta, x);
      if x != v && Relaxed(g, dist, x) {
        LabelFalls(g, dist, v, d, |g[x]|, x);
      }
    }
  }

  // Labels only fell since `before`, or nothing has changed.
  ghost predicate Fell(before: seq<Dist>, after: seq<Dist>, had: seq<seq<nat>>, has: seq<seq<nat>>) {
    && |before| == |after|
    && ((after == before && has == had) || Lower(before, after))
    && forall v :: 0 <= v < |before| && before[v].Fin? ==> after[v].Fin?
  }

  method RelaxArc(g: Graph, ghost s: nat, distances: array<Dist>, waiting: seq<seq<nat>>, u: nat, j: nat,
                  ghost rest: seq<nat>, ghost curr: nat, delta: real) returns (bins: seq<seq<nat>>)
    requires Passing(g, s, distances[..], waiting, rest, curr, delta, u, j) && j < |g[u]|
    modifies distances
    ensures Passing(g, s, distances[..], bins, rest, curr, delta, u, j + 1)
    ensures Fell(old(distances[..]), distances[..], waiting, bins)
  {
    bins := waiting;
    var v := g[u][j].dst;
    var d := distances[u].d + g[u][j].w;
    if Improves(d, distances[v]) {
      ghost var before := distances[..];
      ImproveStep(g, s, before, bins, rest, curr, delta, u, j);
      distances[v] := Fin(d);
      assert distances[..] == before[v := Fin(d)];
      bins := Push(bins, Bin(d, delta), v);
    }
  }

  lemma FellTwice(a: seq<Dist>, b: seq<Dist>, c: seq<Dist>, x: seq<seq<nat>>, y: seq<seq<nat>>, z: seq<seq<nat>>)
    requires Fell(a, b, x, y) && Fell(b, c, y, z)
    ensures Fell(a, c, x, z)
  {
  }

  // The inner loop: all arcs of u.
  method RelaxArcs(g: Graph, ghost s: nat, distances: array<Dist>, waiting: seq<seq<nat>>, u: nat,
                   ghost rest: seq<nat>, ghost curr: nat, delta: real) returns (bins: seq<seq<nat>>)
    requires Passing(g, s, distances[..], waiting, rest, curr, delta, u, 0)
    modifies distances
    ensures Passing(g, s, distances[..], bins, rest, curr, delta, u, |g[u]|)
    ensures (distances[..] == old(distances[..]) && bins == waiting) || Lower(old(distances[..]), distances[..])
    ensures forall v :: 0 <= v < distances.Length && old(distances[v]).Fin? ==> distances[v].Fin?
  {
    bins := waiting;
    ghost var start := distances[..];
    for j := 0 to |g[u]|
      invariant Passing(g, s, distances[..], bins, rest, curr, delta, u, j)
      invariant Fell(start, distances[..], waiting, bins)
    {
      ghost var before, had := distances[..], bins;
      bins := RelaxArc(g, s, distances, bins, u, j, rest, curr, delta);
      FellTwice(start, before, distances[..], waiting, had, bins);
    }
    assert forall v :: 0 <= v < distances.Length ==> start[v] == old(distances[v]);
  }

  // ---- One bin ----

  ghost predicate AllCovered(g: Graph, s: nat, dist: seq<Dist>, bins: seq<seq<nat>>, rest: seq<nat>, curr: nat,
                             delta: real) {
    && Closed(g) && delta > 0.0 && Sound(g, s, dist) && BinsOk(bins, curr, dist)
    && Labelled(dist, rest)
    && forall v: nat :: v < |g| ==> Covered(g, dist, bins, rest, curr, delta, v)
  }

  lemma BeginPass(g: Graph, s: nat, dist: seq<Dist>, bins: seq<seq<nat>>, rest: seq<nat>, curr: nat, delta: real)
    requires AllCovered(g, s, dist, bins, rest, curr, delta) && rest != []
    ensures var u := rest[0];
            && u < |g| && dist[u].Fin?
            && (if dist[u].d as real >= delta * curr as real
                then Passing(g, s, dist, bins, rest[1..], curr, delta, u, 0)
                else AllCovered(g, s, dist, bins, rest[1..], curr, delta))
  {
    var u := rest[0];
    assert u < |dist| && dist[u].Fin? && Labelled(dist, rest[1..]);
    BinAtLeast(dist[u].d, delta, curr);
    forall v: nat | v < |g| && v != u
      ensures Covered(g, dist, bins, rest[1..], curr, delta, v)
    {
      assert Covered(g, dist, bins, rest, curr, delta, v);
      assert v in rest ==> v in rest[1..];
    }
    assert Covered(g, dist, bins, rest, curr, delta, u);
  }

  lemma EndPass(g: Graph, s: nat, dist: seq<Dist>, bins: seq<seq<nat>>, rest: seq<nat>, curr: nat, delta: real, u: nat)
    requires u < |g| && Passing(g, s, dist, bins, rest, curr, delta, u, |g[u]|)
    requires Labelled(dist, rest)
    ensures AllCovered(g, s, dist, bins, rest, curr, delta)
  {
    assert Relaxed(g, dist, u);
  }

  // The frontier loop: entries whose label has meanwhile fallen below the bin are skipped.
  method DrainFrontier(g: Graph, ghost s: nat, distances: array<Dist>, waiting: seq<seq<nat>>, frontier: seq<nat>,
                       curr: nat, delta: real)
    returns (bins: seq<seq<nat>>)
    requires AllCovered(g, s, distances[..], waiting, frontier, curr, delta)
    modifies distances
    ensures AllCovered(g, s, distances[..], bins, [], curr, delta)
    ensures (distances[..] == old(distances[..]) && bins == waiting) || Lower(old(distances[..]), distances[..])
  {
    bins := waiting;
    for i := 0 to |frontier|
      invariant AllCovered(g, s, distances[..], bins, frontier[i..], curr, delta)
      invariant (distances[..] == old(distances[..]) && bins == waiting) || Lower(old(distances[..]), distances[..])
    {
      ghost var rest, dist := frontier[i + 1..], distances[..];
      assert frontier[i..][0] == frontier[i] && frontier[i..][1..] == rest;
      BeginPass(g, s, dist, bins, frontier[i..], curr, delta);
      var u := frontier[i];
      if distances[u].d as real >= delta * curr as real {
        bins := RelaxArcs(g, s, distances, bins, u, rest, curr, delta);
        StillLabelled(dist, distances[..], rest);
        EndPass(g, s, distances[..], bins, rest, curr, delta, u);
      }
    }
  }

  lemma StillLabelled(before: seq<Dist>, after: seq<Dist>, vs: seq<nat>)
    requires |before| == |after| && Labelled(before, vs)
    requires forall v :: 0 <= v < |before| && before[v].Fin? ==> after[v].Fin?
    ensures Labelled(after, vs)
  {
  }

  // The first non-empty bin from `curr` on, if any.
  method NextBin(bins: seq<seq<nat>>, curr: nat) returns (found: bool, next: nat)
    ensures found ==> curr <= next < |bins| && bins[next] != []
    ensures forall i :: curr <= i < (if found then next else |bins|) ==> bins[i] == []
  {
    next := curr;
    while next < |bins| && bins[next] == []
      invariant curr <= next
      invariant forall i :: curr <= i < next && i < |bins| ==> bins[i] == []
      decreases |bins| - next
    {
      next := next + 1;
    }
    found := next < |bins|;
  }

  lemma TakeBin(g: Graph, s: nat, dist: seq<Dist>, bins: seq<seq<nat>>, curr: nat, delta: real, next: nat)
    requires AllCovered(g, s, dist, bins, [], curr, delta) && curr <= next < |bins|
    requires forall i :: curr <= i < next ==> bins[i] == []
    ensures AllCovered(g, s, dist, bins[next := []], bins[next], next, delta)
    ensures Entries(bins[next := []], |bins|) == Entries(bins, |bins|) - |bins[next]|
  {
    ClearCounts(bins, |bins|, next);
    var left := bins[next := []];
    forall v: nat | v < |g|
      ensures Covered(g, dist, left, bins[next], next, delta, v)
    {
      assert Covered(g, dist, bins, [], curr, delta, v);
    }
  }

  lemma NothingWaits(g: Graph, s: nat, dist: seq<Dist>, bins: seq<seq<nat>>, curr: nat, delta: real)
    requires AllCovered(g, s, dist, bins, [], curr, delta) && forall i :: curr <= i < |bins| ==> bins[i] == []
    ensures forall v :: 0 <= v < |g| ==> IsShortest(g, s, v, dist[v])
  {
    forall u | 0 <= u < |g|
      ensures Relaxed(g, dist, u)
    {
      assert Covered(g, dist, bins, [], curr, delta, u);
    }
    AllShortest(g, s, dist);
  }

  lemma StartCovered(g: Graph, s: nat, dist: seq<Dist>, delta: real)
    requires Closed(g) && s < |g| == |dist| && delta > 0.0
    requires dist[s] == Fin(0) && forall v :: 0 <= v < |dist| && v != s ==> dist[v].Inf?
    ensures AllCovered(g, s, dist, [], [s], 0, delta)
  {
    assert Walk(g, s, s, 0, 0);
    assert HasWalk(g, s, s, 0);
    BinAtLeast(0, delta, 1);
    forall v: nat | v < |g|
      ensures Covered(g, dist, [], [s], 0, delta, v)
    {
    }
  }

  // compute_sssp: the labels are the shortest walk lengths, infinite where there is no walk.
  method ComputeSssp(g: Graph, source: nat, delta: real) returns (distances: array<Dist>)
    requires Closed(g) && source < |g| && delta > 0.0
    ensures distances.Length == |g| && forall v :: 0 <= v < |g| ==> IsShortest(g, source, v, distances[v])
  {
    distances := new Dist[|g|](_ => Inf);
    distances[source] := Fin(0);
    var bins: seq<seq<nat>>, frontier, curr, found := [], [source], 0, true;
    StartCovered(g, source, distances[..], delta);
    while found
      invariant fresh(distances) && distances.Length == |g|
      invariant found ==> AllCovered(g, source, distances[..], bins, frontier, curr, delta) && frontier != []
      invariant !found ==> forall v :: 0 <= v < |g| ==> IsShortest(g, source, v, distances[..][v])
      decreases CountInf(distances[..], |g|), SumFin(distances[..], |g|), |frontier| + Entries(bins, |bins|), found
    {
      bins := DrainFrontier(g, source, distances, bins, frontier, curr, delta);
      var next;
      found, next := NextBin(bins, curr);
      if found {
        TakeBin(g, source, distances[..], bins, curr, delta, next);
        curr, frontier, bins := next, bins[next], bins[next := []];
      } else {
        NothingWaits(g, source, distances[..], bins, curr, delta);
        frontier := [];
      }
    }
  }
}
