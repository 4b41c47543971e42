// Exactly which label compute_wcc leaves where (algorithm/WCC.cpp:32-72). The scans visit the edges in a
// fixed order; a label moves along a path exactly if the order offers the links of the path one after
// the other.
module WCCSchedule {
  import opened Basics
  import opened Hops
  import opened WCC

  // One comparison of the scans: the label of src is offered to dst.
  datatype Offer = Offer(src: nat, dst: nat)

  ghost predicate Within(ops: seq<Offer>, n: nat) {
    forall i :: 0 <= i < |ops| ==> ops[i].src < n && ops[i].dst < n
  }

  function Lower(c: Labels, h: Offer): (r: Labels)
    requires h.src < |c| && h.dst < |c|
    ensures |r| == |c|
  {
    if c[h.src] < c[h.dst] then c[h.dst := c[h.src]] else c
  }

  function Run(c: Labels, ops: seq<Offer>): (r: Labels)
    requires Within(ops, |c|)
    ensures |r| == |c|
  {
    if ops == [] then c else Lower(Run(c, ops[..|ops| - 1]), ops[|ops| - 1])
  }

  // A path from x to v whose links come in this order among the offers.
  ghost predicate Carried(ops: seq<Offer>, x: nat, v: nat) {
    if ops == [] then x == v
    else
      var front, last := ops[..|ops| - 1], ops[|ops| - 1];
      Carried(front, x, v) || (last.dst == v && Carried(front, x, last.src))
  }

  lemma {:induction false} Stays(ops: seq<Offer>, x: nat)
    ensures Carried(ops, x, x)
  {
    if ops != [] {
      Stays(ops[..|ops| - 1], x);
    }
  }

  // A vertex ends with the smallest label that the offers carry to it.
  lemma {:induction false} RunIsLeast(c: Labels, ops: seq<Offer>, v: nat) returns (x: nat)
    requires Within(ops, |c|) && v < |c|
    ensures x < |c| && Carried(ops, x, v) && Run(c, ops)[v] == c[x]
    ensures forall y: nat :: Carried(ops, y, v) ==> y < |c| && Run(c, ops)[v] <= c[y]
  {
    if ops == [] {
      x := v;
    } else {
      var front, last := ops[..|ops| - 1], ops[|ops| - 1];
      x := RunIsLeast(c, front, v);
      if last.dst == v {
        var y := RunIsLeast(c, front, last.src);
        if Run(c, front)[last.src] < Run(c, front)[v] {
          x := y;
        }
      }
    }
  }

  lemma RunSnoc(c: Labels, ops: seq<Offer>, h: Offer)
    requires Within(ops, |c|) && h.src < |c| && h.dst < |c|
    ensures Within(ops + [h], |c|) && Run(c, ops + [h]) == Lower(Run(c, ops), h)
  {
    assert (ops + [h])[..|ops|] == ops;
  }

  lemma {:induction false} RunAppend(c: Labels, a: seq<Offer>, b: seq<Offer>)
    requires Within(a, |c|) && Within(b, |c|)
    ensures Within(a + b, |c|) && Run(c, a + b) == Run(Run(c, a), b)
  {
    if b == [] {
      assert a + b == a;
    } else {
      var front, last := b[..|b| - 1], b[|b| - 1];
      RunAppend(c, a, front);
      assert a + b == (a + front) + [last];
      RunSnoc(c, a + front, last);
    }
  }

  // ---- The order of the scans ----

  function Pushes(u: nat, vs: seq<nat>, j: nat): seq<Offer>
    requires j <= |vs|
  {
    if j == 0 then [] else Pushes(u, vs, j - 1) + [Offer(u, vs[j - 1])]
  }

  function Meets(u: nat, vs: seq<nat>, j: nat): seq<Offer>
    requires j <= |vs|
  {
    if j == 0 then [] else Meets(u, vs, j - 1) + [Offer(u, vs[j - 1])] + [Offer(vs[j - 1], u)]
  }

  function ForwardScan(adj: Graph, u: nat): seq<Offer>
    requires u <= |adj|
  {
    if u == 0 then [] else ForwardScan(adj, u - 1) + Pushes(u - 1, adj[u - 1], |adj[u - 1]|)
  }

  function BackwardScan(adj: Graph, u: nat): seq<Offer>
    requires u <= |adj|
  {
    if u == 0 then [] else BackwardScan(adj, u - 1) + Meets(u - 1, adj[u - 1], |adj[u - 1]|)
  }

  // The offers of k rounds.
  function Schedule(adj: Graph, k: nat): seq<Offer> {
    if k == 0 then [] else Schedule(adj, k - 1) + ForwardScan(adj, |adj|) + BackwardScan(adj, |adj|)
  }

  lemma PushIsOffer(c: Labels, u: nat, vs: seq<nat>, j: nat)
    requires 0 < j <= |vs| && u < |c| && (forall i :: 0 <= i < |vs| ==> vs[i] < |c|)
    requires PushTo(c, c[u], vs, j - 1)[u] == c[u]
    ensures PushTo(c, c[u], vs, j) == Lower(PushTo(c, c[u], vs, j - 1), Offer(u, vs[j - 1]))
    ensures PushTo(c, c[u], vs, j)[u] == c[u]
  {
  }

  lemma {:induction false} PushesRun(c: Labels, u: nat, vs: seq<nat>, j: nat)
    requires j <= |vs| && u < |c| && forall i :: 0 <= i < |vs| ==> vs[i] < |c|
    ensures Within(Pushes(u, vs, j), |c|)
    ensures Run(c, Pushes(u, vs, j)) == PushTo(c, c[u], vs, j) && PushTo(c, c[u], vs, j)[u] == c[u]
  {
    if j > 0 {
      PushesRun(c, u, vs, j - 1);
      RunSnoc(c, Pushes(u, vs, j - 1), Offer(u, vs[j - 1]));
      PushIsOffer(c, u, vs, j);
    }
  }

  lemma MeetIsTwoOffers(r: Labels, u: nat, v: nat)
    requires u < |r| && v < |r|
    ensures Lower(Lower(r, Offer(u, v)), Offer(v, u)) == r[u := Min(r[u], r[v])][v := Min(r[u], r[v])]
  {
  }

  lemma {:induction false} MeetsRun(c: Labels, u: nat, vs: seq<nat>, j: nat)
    requires j <= |vs| && u < |c| && forall i :: 0 <= i < |vs| ==> vs[i] < |c|
    ensures Within(Meets(u, vs, j), |c|) && Run(c, Meets(u, vs, j)) == MeetTo(c, u, vs, j)
  {
    if j > 0 {
      var v := vs[j - 1];
      MeetsRun(c, u, vs, j - 1);
      RunSnoc(c, Meets(u, vs, j - 1), Offer(u, v));
      RunSnoc(c, Meets(u, vs, j - 1) + [Offer(u, v)], Offer(v, u));
      MeetIsTwoOffers(MeetTo(c, u, vs, j - 1), u, v);
    }
  }

  lemma RunThen(c: Labels, a: seq<Offer>, b: seq<Offer>, mid: Labels, end: Labels)
    requires Within(a, |c|) && Run(c, a) == mid && Within(b, |mid|) && Run(mid, b) == end
    ensures Within(a + b, |c|) && Run(c, a + b) == end
  {
    RunAppend(c, a, b);
  }

  // The scan up to u computes the labels r.
  ghost predicate Computes(c: Labels, scan: seq<Offer>, r: Labels) {
    Within(scan, |c|) && Run(c, scan) == r
  }

  lemma ForwardNext(adj: Graph, c: Labels, u: nat)
    requires Closed(adj) && |c| == |adj| && 0 < u <= |adj|
    requires Computes(c, ForwardScan(adj, u - 1), ForwardTo(adj, c, u - 1))
    ensures Computes(c, ForwardScan(adj, u), ForwardTo(adj, c, u))
  {
    var r, vs := ForwardTo(adj, c, u - 1), adj[u - 1];
    PushesRun(r, u - 1, vs, |vs|);
    RunThen(c, ForwardScan(adj, u - 1), Pushes(u - 1, vs, |vs|), r, PushTo(r, r[u - 1], vs, |vs|));
  }

  lemma {:induction false} ForwardRuns(adj: Graph, c: Labels, u: nat)
    requires Closed(adj) && |c| == |adj| && u <= |adj|
    ensures Computes(c, ForwardScan(adj, u), ForwardTo(adj, c, u))
  {
    if u > 0 {
      ForwardRuns(adj, c, u - 1);
      ForwardNext(adj, c, u);
    }
  }

  lemma BackwardNext(adj: Graph, c: Labels, u: nat)
    requires Closed(adj) && |c| == |adj| && 0 < u <= |adj|
    requires Computes(c, BackwardScan(adj, u - 1), BackwardTo(adj, c, u - 1))
    ensures Computes(c, BackwardScan(adj, u), BackwardTo(adj, c, u))
  {
    var r, vs := BackwardTo(adj, c, u - 1), adj[u - 1];
    MeetsRun(r, u - 1, vs, |vs|);
    RunThen(c, BackwardScan(adj, u - 1), Meets(u - 1, vs, |vs|), r, MeetTo(r, u - 1, vs, |vs|));
  }

  lemma {:induction false} BackwardRuns(adj: Graph, c: Labels, u: nat)
    requires Closed(adj) && |c| == |adj| && u <= |adj|
    ensures Computes(c, BackwardScan(adj, u), BackwardTo(adj, c, u))
  {
    if u > 0 {
      BackwardRuns(adj, c, u - 1);
      BackwardNext(adj, c, u);
    }
  }

  lemma {:induction false} RoundsRun(adj: Graph, k: nat)
    requires Closed(adj)
    ensures Within(Schedule(adj, k), |adj|) && Run(Rounds(adj, 0), Schedule(adj, k)) == Rounds(adj, k)
  {
    if k > 0 {
      RoundsRun(adj, k - 1);
      var c, start := Rounds(adj, k - 1), Rounds(adj, 0);
      ForwardRuns(adj, c, |adj|);
      BackwardRuns(adj, ForwardTo(adj, c, |adj|), |adj|);
      RunAppend(start, Schedule(adj, k - 1), ForwardScan(adj, |adj|));
      RunAppend(start, Schedule(adj, k - 1) + ForwardScan(adj, |adj|), BackwardScan(adj, |adj|));
    }
  }

  // After k rounds the label of v is the smallest vertex with a path to v that the k rounds carry.
  lemma LabelIsLeastCarried(adj: Graph, k: nat, v: nat)
    requires Closed(adj) && v < |adj|
    ensures Carried(Schedule(adj, k), Rounds(adj, k)[v], v)
    ensures forall x: nat :: Carried(Schedule(adj, k), x, v) ==> Rounds(adj, k)[v] <= x
  {
    RoundsRun(adj, k);
    var x := RunIsLeast(Rounds(adj, 0), Schedule(adj, k), v);
  }

  // w is met when following the labels from v.
  ghost predicate OnChain(c: Labels, v: nat, w: nat)
    requires Descending(c)
    decreases v
  {
    v < |c| && (v == w || (c[v] != v && OnChain(c, c[v], w)))
  }

  lemma {:induction false} SameRoot(c: Labels, v: nat, w: nat)
    requires Descending(c) && OnChain(c, v, w)
    ensures w < |c| && Root(c, v) == Root(c, w)
    decreases v
  {
    if v != w {
      SameRoot(c, c[v], w);
    }
  }

  lemma {:induction false} RootIsOnChain(c: Labels, v: nat)
    requires Descending(c) && v < |c|
    ensures OnChain(c, v, Root(c, v))
    decreases v
  {
    if c[v] != v {
      RootIsOnChain(c, c[v]);
    }
  }

  lemma {:induction false} ChainIsJoined(adj: Graph, c: Labels, v: nat, w: nat)
    requires Sound(adj, c) && Descending(c) && OnChain(c, v, w)
    ensures Joined(adj, w, v)
    decreases v
  {
    if v == w {
      JoinedIsEquivalence(adj, v, v, v);
    } else {
      assert LabelOk(adj, c, v);
      ChainIsJoined(adj, c, c[v], w);
      JoinedIsEquivalence(adj, w, c[v], v);
    }
  }

  lemma ReachedIsNamed(adj: Graph, k: nat, c: Labels, v: nat, m: nat, w: nat)
    requires Closed(adj) && v < |adj| && IsLeast(adj, v, m) && c == Rounds(adj, k)
    requires Sound(adj, c) && Descending(c) && OnChain(c, v, w) && Carried(Schedule(adj, k), m, w)
    ensures Root(c, v) == m
  {
    SameRoot(c, v, w);
    LabelIsLeastCarried(adj, k, w);
    RootIsJoined(adj, c, v);
    assert Joined(adj, Root(c, v), v);
  }

  // u is the smallest vertex that k rounds carry to v.
  ghost predicate LeastCarried(adj: Graph, k: nat, u: nat, v: nat) {
    Carried(Schedule(adj, k), u, v) && forall x: nat :: Carried(Schedule(adj, k), x, v) ==> u <= x
  }

  // From v, going over and over to the smallest vertex carried there, one comes to m.
  ghost predicate Descends(adj: Graph, k: nat, v: nat, m: nat) {
    v == m || exists u: nat :: u < v && LeastCarried(adj, k, u, v) && Descends(adj, k, u, m)
  }

  // That is where following the labels leads.
  lemma {:induction false} ChainIsDescent(adj: Graph, k: nat, v: nat, m: nat)
    requires Closed(adj) && v < |adj| && Descending(Rounds(adj, k))
    ensures OnChain(Rounds(adj, k), v, m) <==> Descends(adj, k, v, m)
  {
    var c := Rounds(adj, k);
    LabelIsLeastCarried(adj, k, v);
    assert LeastCarried(adj, k, c[v], v);
    if c[v] != v {
      ChainIsDescent(adj, k, c[v], m);
    }
    forall u: nat | LeastCarried(adj, k, u, v)
      ensures u == c[v]
    {
    }
  }

  // With k rounds, the name of v is its component's smallest vertex if and only if the schedule carries
  // that vertex down to v in this sense. It can be read off the graph; compute_wcc makes MAX_ROUNDS.
  lemma NameIsLeastIff(adj: Graph, k: nat, v: nat, m: nat)
    requires Closed(adj) && v < |adj| && IsLeast(adj, v, m)
    ensures Descending(Rounds(adj, k))
    ensures Root(Rounds(adj, k), v) == m <==> Descends(adj, k, v, m)
  {
    var c := Rounds(adj, k);
    RoundsAreSound(adj, k);
    SoundDescends(adj, c);
    ChainIsDescent(adj, k, v, m);
    if Root(c, v) == m {
      RootIsOnChain(c, v);
    }
    if OnChain(c, v, m) {
      Stays(Schedule(adj, k), m);
      ReachedIsNamed(adj, k, c, v, m, m);
    }
  }

  // It is enough that the schedule carries m to any vertex on the way.
  lemma CarriedOnTheWay(adj: Graph, k: nat, v: nat, m: nat, w: nat)
    requires Closed(adj) && v < |adj| && IsLeast(adj, v, m)
    requires Descends(adj, k, v, w) && Carried(Schedule(adj, k), m, w)
    ensures Descends(adj, k, v, m)
  {
    var c := Rounds(adj, k);
    RoundsAreSound(adj, k);
    SoundDescends(adj, c);
    ChainIsDescent(adj, k, v, w);
    ReachedIsNamed(adj, k, c, v, m, w);
    NameIsLeastIff(adj, k, v, m);
  }
}
