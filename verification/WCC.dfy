// Weakly connected components by label propagation (algorithm/WCC.cpp), on one thread.
module WCC {
  import opened Basics
  import opened Hops

  const MAX_ROUNDS: nat := 100

  // ---- The reference: weak connectivity ----

  predicate Linked(adj: Graph, u: nat, v: nat) {
    Edge(adj, u, v) || Edge(adj, v, u)
  }

  // v is at most k links away from a.
  ghost predicate Near(adj: Graph, a: nat, k: nat, v: nat) {
    if k == 0 then v == a
    else Near(adj, a, k - 1, v) || exists u: nat {:trigger Linked(adj, u, v)} ::
        Near(adj, a, k - 1, u) && Linked(adj, u, v)
  }

  ghost predicate Joined(adj: Graph, a: nat, v: nat) {
    exists k: nat {:trigger Near(adj, a, k, v)} :: Near(adj, a, k, v)
  }

  lemma {:induction false} NearChains(adj: Graph, a: nat, k: nat, b: nat, l: nat, c: nat)
    requires Near(adj, a, k, b) && Near(adj, b, l, c)
    ensures Near(adj, a, k + l, c)
  {
    if l > 0 {
      if Near(adj, b, l - 1, c) {
        NearChains(adj, a, k, b, l - 1, c);
      } else {
        var u: nat :| Near(adj, b, l - 1, u) && Linked(adj, u, c);
        NearChains(adj, a, k, b, l - 1, u);
      }
    }
  }

  lemma {:induction false} NearReverses(adj: Graph, a: nat, k: nat, v: nat)
    requires Near(adj, a, k, v)
    ensures Near(adj, v, k, a)
  {
    if k > 0 {
      if Near(adj, a, k - 1, v) {
        NearReverses(adj, a, k - 1, v);
      } else {
        var u: nat :| Near(adj, a, k - 1, u) && Linked(adj, u, v);
        NearReverses(adj, a, k - 1, u);
        assert Near(adj, v, 0, v) && Linked(adj, v, u);
        assert Near(adj, v, 1, u);
        NearChains(adj, v, 1, u, k - 1, a);
      }
    }
  }

  lemma JoinedIsEquivalence(adj: Graph, a: nat, b: nat, c: nat)
    ensures Joined(adj, a, a)
    ensures Joined(adj, a, b) ==> Joined(adj, b, a)
    ensures Joined(adj, a, b) && Joined(adj, b, c) ==> Joined(adj, a, c)
  {
    assert Near(adj, a, 0, a);
    if Joined(adj, a, b) {
      var k: nat :| Near(adj, a, k, b);
      NearReverses(adj, a, k, b);
      if Joined(adj, b, c) {
        var l: nat :| Near(adj, b, l, c);
        NearChains(adj, a, k, b, l, c);
      }
    }
  }

  // m is the smallest vertex of v's component.
  ghost predicate IsLeast(adj: Graph, v: nat, m: nat) {
    Joined(adj, m, v) && forall x {:trigger Joined(adj, x, v)} :: Joined(adj, x, v) ==> m <= x
  }

  // ---- The passes ----

  type Labels = seq<nat>

  ghost predicate NoHigher(after: Labels, before: Labels) {
    |after| == |before| && forall x :: 0 <= x < |after| ==> after[x] <= before[x]
  }

  // Forward: u's label goes to the first j of its successors that hold a larger one.
  function PushTo(c: Labels, my: nat, vs: seq<nat>, j: nat): (r: Labels)
    requires j <= |vs| && forall i :: 0 <= i < |vs| ==> vs[i] < |c|
    ensures |r| == |c| && NoHigher(r, c)
    ensures forall i :: 0 <= i < j ==> r[vs[i]] <= my
  {
    if j == 0 then c
    else
      var r := PushTo(c, my, vs, j - 1);
      if my < r[vs[j - 1]] then r[vs[j - 1] := my] else r
  }

  // Backward: u and each of its first j successors settle on the smaller of their labels.
  function MeetTo(c: Labels, u: nat, vs: seq<nat>, j: nat): (r: Labels)
    requires j <= |vs| && u < |c| && forall i :: 0 <= i < |vs| ==> vs[i] < |c|
    ensures |r| == |c| && NoHigher(r, c)
    ensures forall i :: 0 <= i < j ==> r[u] <= c[vs[i]]
  {
    if j == 0 then c
    else
      var r := MeetTo(c, u, vs, j - 1);
      var m := Min(r[u], r[vs[j - 1]]);
      r[u := m][vs[j - 1] := m]
  }

  function ForwardTo(adj: Graph, c: Labels, u: nat): (r: Labels)
    requires Closed(adj) && |c| == |adj| && u <= |adj|
    ensures |r| == |c| && NoHigher(r, c)
    ensures forall x, i :: 0 <= x < u && 0 <= i < |adj[x]| ==> r[adj[x][i]] <= c[x]
  {
    if u == 0 then c
    else
      var r := ForwardTo(adj, c, u - 1);
      PushTo(r, r[u - 1], adj[u - 1], |adj[u - 1]|)
  }

  function BackwardTo(adj: Graph, c: Labels, u: nat): (r: Labels)
    requires Closed(adj) && |c| == |adj| && u <= |adj|
    ensures |r| == |c| && NoHigher(r, c)
    ensures forall x, i :: 0 <= x < u && 0 <= i < |adj[x]| ==> r[x] <= c[adj[x][i]]
  {
    if u == 0 then c
    else
      var r := BackwardTo(adj, c, u - 1);
      MeetTo(r, u - 1, adj[u - 1], |adj[u - 1]|)
  }

  function Round(adj: Graph, c: Labels): (r: Labels)
    requires Closed(adj) && |c| == |adj|
    ensures |r| == |c| && NoHigher(r, c)
  {
    BackwardTo(adj, ForwardTo(adj, c, |adj|), |adj|)
  }

  function Rounds(adj: Graph, k: nat): (r: Labels)
    requires Closed(adj)
    ensures |r| == |adj|
  {
    if k == 0 then seq(|adj|, v => v) else Round(adj, Rounds(adj, k - 1))
  }

  // A round carries every label over every link, in both directions.
  lemma RoundCarries(adj: Graph, c: Labels, u: nat, v: nat)
    requires Closed(adj) && |c| == |adj| && u < |adj| && v < |adj| && Linked(adj, u, v)
    ensures Round(adj, c)[v] <= c[u]
  {
    var f := ForwardTo(adj, c, |adj|);
    if Edge(adj, u, v) {
      var i :| 0 <= i < |adj[u]| && adj[u][i] == v;
      assert f[adj[u][i]] <= c[u];
    } else {
      var i :| 0 <= i < |adj[v]| && adj[v][i] == u;
      assert Round(adj, c)[v] <= f[adj[v][i]];
    }
  }

  lemma LinkedInside(adj: Graph, u: nat, v: nat)
    requires Closed(adj) && Linked(adj, u, v)
    ensures u < |adj| && v < |adj|
  {
  }

  // After k rounds a label is no larger than any vertex within k links.
  lemma {:induction false} RoundsReach(adj: Graph, k: nat, a: nat, v: nat)
    requires Closed(adj) && v < |adj| && Near(adj, a, k, v)
    ensures Rounds(adj, k)[v] <= a
  {
    if k > 0 {
      if Near(adj, a, k - 1, v) {
        RoundsReach(adj, k - 1, a, v);
      } else {
        var u: nat :| Near(adj, a, k - 1, u) && Linked(adj, u, v);
        LinkedInside(adj, u, v);
        RoundsReach(adj, k - 1, a, u);
        RoundCarries(adj, Rounds(adj, k - 1), u, v);
      }
    }
  }

  // ---- Soundness ----

  ghost predicate LabelOk(adj: Graph, c: Labels, v: nat) {
    v < |c| ==> c[v] <= v && Joined(adj, c[v], v)
  }

  // Every label is a vertex of the component, and no larger than the vertex.
  ghost predicate Sound(adj: Graph, c: Labels) {
    |c| == |adj| && forall v {:trigger LabelOk(adj, c, v)} :: LabelOk(adj, c, v)
  }

  lemma LowerIsSound(adj: Graph, c: Labels, u: nat, v: nat, m: nat)
    requires Sound(adj, c) && v < |c| && m <= c[v] && Joined(adj, m, u) && (u == v || Linked(adj, u, v))
    ensures Sound(adj, c[v := m]) && Joined(adj, m, v)
  {
    assert LabelOk(adj, c, v);
    if u != v {
      assert Near(adj, u, 0, u);
      assert Near(adj, u, 1, v);
      JoinedIsEquivalence(adj, m, u, v);
    }
    forall x: nat {:trigger LabelOk(adj, c[v := m], x)}
      ensures LabelOk(adj, c[v := m], x)
    {
      assert LabelOk(adj, c, x);
    }
  }

  lemma {:induction false} PushIsSound(adj: Graph, c: Labels, u: nat, my: nat, j: nat)
    requires Closed(adj) && Sound(adj, c) && u < |adj| && j <= |adj[u]| && Joined(adj, my, u)
    ensures Sound(adj, PushTo(c, my, adj[u], j))
  {
    if j > 0 {
      PushIsSound(adj, c, u, my, j - 1);
      var r := PushTo(c, my, adj[u], j - 1);
      assert Edge(adj, u, adj[u][j - 1]);
      if my < r[adj[u][j - 1]] {
        LowerIsSound(adj, r, u, adj[u][j - 1], my);
      }
    }
  }

  lemma {:induction false} MeetIsSound(adj: Graph, c: Labels, u: nat, j: nat)
    requires Closed(adj) && Sound(adj, c) && u < |adj| && j <= |adj[u]|
    ensures Sound(adj, MeetTo(c, u, adj[u], j))
  {
    if j > 0 {
      MeetIsSound(adj, c, u, j - 1);
      var r, v := MeetTo(c, u, adj[u], j - 1), adj[u][j - 1];
      var m := Min(r[u], r[v]);
      assert LabelOk(adj, r, u) && LabelOk(adj, r, v) && Edge(adj, u, v);
      if r[v] < r[u] {
        LowerIsSound(adj, r, v, u, m);
        LowerIsSound(adj, r[u := m], v, v, m);
      } else {
        LowerIsSound(adj, r, u, v, m);
        LowerIsSound(adj, r, u, u, m);
        LowerIsSound(adj, r[u := m], u, v, m);
      }
    }
  }

  lemma {:induction false} ForwardIsSound(adj: Graph, c: Labels, u: nat)
    requires Closed(adj) && Sound(adj, c) && u <= |adj|
    ensures Sound(adj, ForwardTo(adj, c, u))
  {
    if u > 0 {
      ForwardIsSound(adj, c, u - 1);
      var r := ForwardTo(adj, c, u - 1);
      assert LabelOk(adj, r, u - 1);
      PushIsSound(adj, r, u - 1, r[u - 1], |adj[u - 1]|);
    }
  }

  lemma {:induction false} BackwardIsSound(adj: Graph, c: Labels, u: nat)
    requires Closed(adj) && Sound(adj, c) && u <= |adj|
    ensures Sound(adj, BackwardTo(adj, c, u))
  {
    if u > 0 {
      BackwardIsSound(adj, c, u - 1);
      MeetIsSound(adj, BackwardTo(adj, c, u - 1), u - 1, |adj[u - 1]|);
    }
  }

  lemma {:induction false} RoundsAreSound(adj: Graph, k: nat)
    requires Closed(adj)
    ensures Sound(adj, Rounds(adj, k))
  {
    if k == 0 {
      forall v: nat {:trigger LabelOk(adj, Rounds(adj, 0), v)}
        ensures LabelOk(adj, Rounds(adj, 0), v)
      {
        JoinedIsEquivalence(adj, v, v, v);
      }
    } else {
      RoundsAreSound(adj, k - 1);
      ForwardIsSound(adj, Rounds(adj, k - 1), |adj|);
      BackwardIsSound(adj, ForwardTo(adj, Rounds(adj, k - 1), |adj|), |adj|);
    }
  }

  // ---- The result ----

  ghost predicate Descending(c: Labels) {
    forall v :: 0 <= v < |c| ==> c[v] <= v
  }

  // The end of the chain of labels from v.
  function Root(c: Labels, v: nat): (r: nat)
    requires Descending(c) && v < |c|
    ensures r <= c[v] <= v && c[r] == r
    decreases v
  {
    if c[v] == v then v else Root(c, c[v])
  }

  lemma SoundDescends(adj: Graph, c: Labels)
    requires Sound(adj, c)
    ensures Descending(c)
  {
    forall v | 0 <= v < |c|
      ensures c[v] <= v
    {
      assert LabelOk(adj, c, v);
    }
  }

  lemma {:induction false} RootIsJoined(adj: Graph, c: Labels, v: nat)
    requires Sound(adj, c) && Descending(c) && v < |c|
    ensures Joined(adj, Root(c, v), v)
    decreases v
  {
    assert LabelOk(adj, c, v);
    if c[v] == v {
      JoinedIsEquivalence(adj, v, v, v);
    } else {
      RootIsJoined(adj, c, c[v]);
      JoinedIsEquivalence(adj, Root(c, v), c[v], v);
    }
  }

  // p names, for every vertex, a vertex of its component no larger than itself.
  ghost predicate Names(adj: Graph, p: Labels) {
    |p| == |adj| && forall v :: 0 <= v < |adj| ==> p[v] <= v && Joined(adj, p[v], v)
  }

  ghost predicate Exact(adj: Graph, p: Labels) {
    |p| == |adj| && forall v :: 0 <= v < |adj| ==> IsLeast(adj, v, p[v])
  }

  ghost predicate Agree(adj: Graph, p: Labels) {
    forall u: nat, v: nat {:trigger Edge(adj, u, v)} :: Edge(adj, u, v) && u < |p| && v < |p| ==> p[u] == p[v]
  }

  lemma {:induction false} AgreeAlong(adj: Graph, p: Labels, a: nat, k: nat, v: nat)
    requires Closed(adj) && Agree(adj, p) && |p| == |adj| && v < |adj| && Near(adj, a, k, v)
    ensures a < |adj| && p[a] == p[v]
  {
    if k > 0 {
      if Near(adj, a, k - 1, v) {
        AgreeAlong(adj, p, a, k - 1, v);
      } else {
        var u: nat :| Near(adj, a, k - 1, u) && Linked(adj, u, v);
        LinkedInside(adj, u, v);
        AgreeAlong(adj, p, a, k - 1, u);
      }
    }
  }

  // The names are the components' smallest vertices if and only if no edge separates two names.
  lemma ExactIffAgree(adj: Graph, p: Labels)
    requires Closed(adj) && Names(adj, p)
    ensures Exact(adj, p) <==> Agree(adj, p)
  {
    if Exact(adj, p) {
      forall u: nat, v: nat | Edge(adj, u, v) && u < |p| && v < |p|
        ensures p[u] == p[v]
      {
        assert Near(adj, u, 0, u) && Linked(adj, u, v);
        assert Near(adj, u, 1, v);
        JoinedIsEquivalence(adj, p[u], u, v);
        JoinedIsEquivalence(adj, u, v, v);
        JoinedIsEquivalence(adj, p[v], v, u);
        assert IsLeast(adj, u, p[u]) && IsLeast(adj, v, p[v]);
      }
    }
    if Agree(adj, p) {
      forall v, x: nat | 0 <= v < |adj| && Joined(adj, x, v)
        ensures p[v] <= x
      {
        var k: nat :| Near(adj, x, k, v);
        AgreeAlong(adj, p, x, k, v);
      }
    }
  }

  // Equal names always mean connected vertices.
  lemma EqualNamesAreJoined(adj: Graph, p: Labels, u: nat, v: nat)
    requires Names(adj, p) && u < |adj| && v < |adj| && p[u] == p[v]
    ensures Joined(adj, u, v)
  {
    JoinedIsEquivalence(adj, p[u], u, u);
    JoinedIsEquivalence(adj, u, p[u], v);
  }

  // ---- The loops ----

  // Some label fell.
  ghost predicate Fell(before: Labels, after: Labels) {
    |before| == |after| && exists x :: 0 <= x < |before| && after[x] < before[x]
  }

  lemma FellThen(a: Labels, b: Labels, c: Labels)
    requires NoHigher(b, a) && NoHigher(c, b) && (Fell(a, b) || Fell(b, c))
    ensures Fell(a, c)
  {
    if Fell(a, b) {
      var x :| 0 <= x < |a| && b[x] < a[x];
      assert c[x] < a[x];
    } else {
      var x :| 0 <= x < |b| && c[x] < b[x];
      assert c[x] < a[x];
    }
  }

  lemma LowersOne(c: Labels, r: Labels, v: nat, m: nat)
    requires NoHigher(r, c) && v < |r| && m < r[v]
    ensures Fell(c, r[v := m])
  {
    assert r[v := m][v] < c[v];
  }

  lemma LowersTwo(c: Labels, r: Labels, u: nat, v: nat)
    requires NoHigher(r, c) && u < |r| && v < |r| && r[u] != r[v]
    ensures var m := Min(r[u], r[v]); Fell(c, r[u := m][v := m])
  {
    var m := Min(r[u], r[v]);
    assert r[u := m][v := m][if r[u] != m then u else v] < c[if r[u] != m then u else v];
  }

  method ForwardPass(adj: Graph, components: array<nat>) returns (changed: bool)
    requires Closed(adj) && components.Length == |adj|
    modifies components
    ensures components[..] == ForwardTo(adj, old(components[..]), |adj|)
    ensures if changed then Fell(old(components[..]), components[..]) else components[..] == old(components[..])
  {
    ghost var c := components[..];
    changed := false;
    for u := 0 to |adj|
      invariant components[..] == ForwardTo(adj, c, u)
      invariant if changed then Fell(c, components[..]) else components[..] == c
    {
      ghost var before := components[..];
      var moved := PushLabel(adj, u, components);
      if changed || moved {
        FellThen(c, before, components[..]);
      }
      changed := changed || moved;
    }
  }

  method PushLabel(adj: Graph, u: nat, components: array<nat>) returns (moved: bool)
    requires Closed(adj) && components.Length == |adj| && u < |adj|
    modifies components
    ensures components[..] == PushTo(old(components[..]), old(components[u]), adj[u], |adj[u]|)
    ensures if moved then Fell(old(components[..]), components[..]) else components[..] == old(components[..])
  {
    ghost var c := components[..];
    var my := components[u];
    moved := false;
    for j := 0 to |adj[u]|
      invariant components[..] == PushTo(c, my, adj[u], j)
      invariant if moved then Fell(c, components[..]) else components[..] == c
    {
      var v := adj[u][j];
      if my < components[v] {
        ghost var before: Labels := components[..];
        components[v] := my;
        assert components[..] == before[v := my];
        LowersOne(c, before, v, my);
        moved := true;
      }
    }
  }

  method BackwardPass(adj: Graph, components: array<nat>) returns (changed: bool)
    requires Closed(adj) && components.Length == |adj|
    modifies components
    ensures components[..] == BackwardTo(adj, old(components[..]), |adj|)
    ensures if changed then Fell(old(components[..]), components[..]) else components[..] == old(components[..])
  {
    ghost var c := components[..];
    changed := false;
    for u := 0 to |adj|
      invariant components[..] == BackwardTo(adj, c, u)
      invariant if changed then Fell(c, components[..]) else components[..] == c
    {
      ghost var before := components[..];
      var moved := MeetLabels(adj, u, components);
      if changed || moved {
        FellThen(c, before, components[..]);
      }
      changed := changed || moved;
    }
  }

  method MeetLabels(adj: Graph, u: nat, components: array<nat>) returns (moved: bool)
    requires Closed(adj) && components.Length == |adj| && u < |adj|
    modifies components
    ensures components[..] == MeetTo(old(components[..]), u, adj[u], |adj[u]|)
    ensures if moved then Fell(old(components[..]), components[..]) else components[..] == old(components[..])
  {
    ghost var c := components[..];
    moved := false;
    for j := 0 to |adj[u]|
      invariant components[..] == MeetTo(c, u, adj[u], j)
      invariant if moved then Fell(c, components[..]) else components[..] == c
    {
      var v := adj[u][j];
      var a, b := components[u], components[v];
      var m := Min(a, b);
      ghost var before: Labels := components[..];
      if a != m {
        components[u] := m;
        moved := true;
      }
      if b != m {
        components[v] := m;
        moved := true;
      }
      assert components[..] == before[u := m][v := m];
      if a != m || b != m {
        LowersTwo(c, before, u, v);
      }
    }
  }

  lemma {:induction false} FixpointStays(adj: Graph, k: nat, m: nat)
    requires Closed(adj) && k <= m && Round(adj, Rounds(adj, k)) == Rounds(adj, k)
    ensures Rounds(adj, m) == Rounds(adj, k)
  {
    if k < m {
      FixpointStays(adj, k, m - 1);
    }
  }

  lemma SettledEarly(adj: Graph, k: nat, m: nat)
    requires Closed(adj) && 0 < k <= m && Rounds(adj, k) == Rounds(adj, k - 1)
    ensures Rounds(adj, m) == Rounds(adj, m - 1) == Rounds(adj, k) && Round(adj, Rounds(adj, m)) == Rounds(adj, m)
  {
    FixpointStays(adj, k - 1, m - 1);
  }

  // One trip of the propagation loop.
  method BothPasses(adj: Graph, components: array<nat>) returns (changed: bool)
    requires Closed(adj) && components.Length == |adj|
    modifies components
    ensures components[..] == Round(adj, old(components[..]))
    ensures if changed then Fell(old(components[..]), components[..]) else components[..] == old(components[..])
  {
    ghost var c := components[..];
    var forward := ForwardPass(adj, components);
    ghost var between := components[..];
    var backward := BackwardPass(adj, components);
    changed := forward || backward;
    if changed {
      FellThen(c, between, components[..]);
    }
  }

  // The propagation loop: stopping early leaves what all the rounds would.
  method Propagate(adj: Graph, components: array<nat>) returns (changed: bool)
    requires Closed(adj) && components.Length == |adj|
    modifies components
    ensures components[..] == Rounds(adj, MAX_ROUNDS)
    ensures changed <==> Rounds(adj, MAX_ROUNDS) != Rounds(adj, MAX_ROUNDS - 1)
    ensures !changed ==> Round(adj, components[..]) == components[..]
  {
    for v := 0 to |adj|
      invariant forall x :: 0 <= x < v ==> components[x] == x
    {
      components[v] := v;
    }
    changed := true;
    var iter := 0;
    while changed && iter < MAX_ROUNDS
      invariant 0 <= iter <= MAX_ROUNDS && components[..] == Rounds(adj, iter)
      invariant iter > 0 ==> (changed <==> Rounds(adj, iter) != Rounds(adj, iter - 1))
      invariant iter == 0 ==> changed
    {
      changed := BothPasses(adj, components);
      iter := iter + 1;
    }
    if !changed {
      SettledEarly(adj, iter, MAX_ROUNDS);
    }
  }

  // The flatten loop: following labels ends, because they strictly descend.
  method Flatten(components: array<nat>) returns (parent: Labels)
    requires Descending(components[..])
    ensures |parent| == components.Length && forall v :: 0 <= v < |parent| ==> parent[v] == Root(components[..], v)
  {
    parent := [];
    for v := 0 to components.Length
      invariant |parent| == v && forall x :: 0 <= x < v ==> parent[x] == Root(components[..], x)
    {
      var cur := v;
      while components[cur] != cur
        invariant 0 <= cur <= v && Root(components[..], cur) == Root(components[..], v)
        decreases cur
      {
        cur := components[cur];
      }
      parent := parent + [cur];
    }
  }

  // Labels that a round no longer changes are exact, and so are their roots.
  lemma SettledIsExact(adj: Graph, c: Labels)
    requires Closed(adj) && Sound(adj, c) && Descending(c) && Round(adj, c) == c
    ensures forall v :: 0 <= v < |adj| ==> IsLeast(adj, v, c[v]) && Root(c, v) == c[v]
  {
    forall u: nat, v: nat | Edge(adj, u, v) && u < |c| && v < |c|
      ensures c[u] == c[v]
    {
      assert Linked(adj, u, v) && Linked(adj, v, u);
      RoundCarries(adj, c, u, v);
      RoundCarries(adj, c, v, u);
    }
    assert Names(adj, c) by {
      forall v | 0 <= v < |adj|
        ensures c[v] <= v && Joined(adj, c[v], v)
      {
        assert LabelOk(adj, c, v);
      }
    }
    ExactIffAgree(adj, c);
    forall v | 0 <= v < |adj|
      ensures Root(c, v) == c[v]
    {
      var k: nat :| Near(adj, c[v], k, v);
      AgreeAlong(adj, c, c[v], k, v);
    }
  }

  // A vertex no more than MAX_ROUNDS links from its component's smallest vertex is named exactly.
  lemma CloseIsExact(adj: Graph, v: nat, m: nat)
    requires Closed(adj) && v < |adj| && IsLeast(adj, v, m) && Near(adj, m, MAX_ROUNDS, v)
    ensures Descending(Rounds(adj, MAX_ROUNDS)) && Root(Rounds(adj, MAX_ROUNDS), v) == m
  {
    var c := Rounds(adj, MAX_ROUNDS);
    RoundsAreSound(adj, MAX_ROUNDS);
    SoundDescends(adj, c);
    RoundsReach(adj, MAX_ROUNDS, m, v);
    RootIsJoined(adj, c, v);
  }

  lemma RootsName(adj: Graph, c: Labels, p: Labels)
    requires Sound(adj, c) && Descending(c) && |p| == |c| && forall v :: 0 <= v < |p| ==> p[v] == Root(c, v)
    ensures Names(adj, p)
  {
    forall v | 0 <= v < |adj|
      ensures p[v] <= v && Joined(adj, p[v], v)
    {
      RootIsJoined(adj, c, v);
    }
  }

  // compute_wcc. Equal names always mean connected vertices. The names are the smallest vertices of
  // the components exactly when they agree across every edge: in particular if the last round
  // changed nothing, and for every vertex within MAX_ROUNDS links of its smallest vertex.
  method ComputeWcc(adj: Graph) returns (parent: Labels, changed: bool)
    requires Closed(adj)
    ensures Names(adj, parent) && (Exact(adj, parent) <==> Agree(adj, parent))
    ensures !changed ==> Exact(adj, parent)
    ensures changed <==> Rounds(adj, MAX_ROUNDS) != Rounds(adj, MAX_ROUNDS - 1)
    ensures forall v, m: nat :: 0 <= v < |adj| && IsLeast(adj, v, m) && Near(adj, m, MAX_ROUNDS, v) ==> parent[v] == m
    ensures Descending(Rounds(adj, MAX_ROUNDS))
    ensures forall v :: 0 <= v < |adj| ==> parent[v] == Root(Rounds(adj, MAX_ROUNDS), v)
  {
    var components := new nat[|adj|];
    changed := Propagate(adj, components);
    RoundsAreSound(adj, MAX_ROUNDS);
    SoundDescends(adj, components[..]);
    parent := Flatten(components);
    RootsName(adj, components[..], parent);
    ExactIffAgree(adj, parent);
    if !changed {
      SettledIsExact(adj, components[..]);
    }
    forall v, m: nat | 0 <= v < |adj| && IsLeast(adj, v, m) && Near(adj, m, MAX_ROUNDS, v)
      ensures parent[v] == m
    {
      CloseIsExact(adj, v, m);
    }
  }

  // ---- The cap on the rounds can bite ----

  // The path 1 - 2 - ... - (n - 1) - 0.
  function LongPath(n: nat): (adj: Graph)
    requires n >= 4
    ensures |adj| == n && Closed(adj)
  {
    seq(n, u requires 0 <= u < n =>
      if u == 0 then [n - 1] else if u == 1 then [2] else if u == n - 1 then [0, n - 2] else [u - 1, u + 1])
  }

  // Label 0 has not come down to any vertex from 1 to p - 1.
  ghost predicate Ahead(c: Labels, p: int) {
    forall v :: 0 < v < p && v < |c| ==> c[v] != 0
  }

  lemma {:induction false} PushKeeps(c: Labels, my: nat, vs: seq<nat>, j: nat, x: nat)
    requires j <= |vs| && x < |c| && forall i :: 0 <= i < |vs| ==> vs[i] < |c|
    requires c[x] != 0 && (my != 0 || x !in vs)
    ensures PushTo(c, my, vs, j)[x] != 0
  {
    if j > 0 {
      PushKeeps(c, my, vs, j - 1, x);
    }
  }

  // No zero comes to x if u and the successors met so far hold none.
  lemma {:induction false} MeetKeeps(c: Labels, u: nat, vs: seq<nat>, j: nat, x: nat)
    requires j <= |vs| && u < |c| && x < |c| && forall i :: 0 <= i < |vs| ==> vs[i] < |c|
    requires c[u] != 0 && (forall i :: 0 <= i < j ==> c[vs[i]] != 0) && c[x] != 0
    ensures MeetTo(c, u, vs, j)[x] != 0
  {
    if j > 0 {
      MeetKeeps(c, u, vs, j - 1, x);
      MeetKeeps(c, u, vs, j - 1, u);
      MeetKeeps(c, u, vs, j - 1, vs[j - 1]);
    }
  }

  lemma {:induction false} MeetElsewhere(c: Labels, u: nat, vs: seq<nat>, j: nat, x: nat)
    requires j <= |vs| && u < |c| && x < |c| && forall i :: 0 <= i < |vs| ==> vs[i] < |c|
    requires x != u && x !in vs
    ensures MeetTo(c, u, vs, j)[x] == c[x]
  {
    if j > 0 {
      MeetElsewhere(c, u, vs, j - 1, x);
    }
  }

  // The shape of one row of the path: below the end, the predecessor first and the successor last.
  ghost predicate PathRow(n: nat, w: nat, vs: seq<nat>) {
    && |vs| > 0 && (forall i :: 0 <= i < |vs| ==> vs[i] < n)
    && (w == 0 ==> forall i :: 0 <= i < |vs| ==> vs[i] == n - 1)
    && (w == n - 1 ==> forall i :: 0 <= i < |vs| ==> vs[i] == 0 || vs[i] == n - 2)
    && (0 < w < n - 1 ==> vs[|vs| - 1] == w + 1 && forall i :: 0 <= i < |vs| - 1 ==> w > 1 && vs[i] == w - 1)
  }

  ghost predicate IsPath(adj: Graph, n: nat) {
    n >= 4 && |adj| == n && Closed(adj) && forall w {:trigger PathRow(n, w, adj[w])} :: 0 <= w < n ==>
        PathRow(n, w, adj[w])
  }

  lemma LongPathIsPath(n: nat)
    requires n >= 4
    ensures IsPath(LongPath(n), n)
  {
  }

  // Within the lag a vertex either offers no zero or has no successor in it.
  lemma RowMisses(n: nat, r: Labels, p: nat, w: nat, vs: seq<nat>, v: nat)
    requires n >= 4 && |r| == n && 2 <= p < n && w < n && Ahead(r, if w <= p then p else p - 1) && PathRow(n, w, vs)
    requires 0 < v < if w < p then p else p - 1
    ensures r[v] != 0 && (r[w] != 0 || v !in vs)
  {
    if 0 < w < p {
      assert r[w] != 0;
    }
  }

  lemma PushLag(n: nat, r: Labels, p: nat, w: nat, vs: seq<nat>)
    requires n >= 4 && |r| == n && 2 <= p < n && w < n && Ahead(r, if w <= p then p else p - 1) && PathRow(n, w, vs)
    ensures Ahead(PushTo(r, r[w], vs, |vs|), if w < p then p else p - 1)
  {
    forall v | 0 < v < (if w < p then p else p - 1) && v < n
      ensures PushTo(r, r[w], vs, |vs|)[v] != 0
    {
      RowMisses(n, r, p, w, vs, v);
      PushKeeps(r, r[w], vs, |vs|, v);
    }
  }

  lemma MeetLag(n: nat, r: Labels, p: nat, w: nat, vs: seq<nat>)
    requires n >= 4 && |r| == n && 2 <= p < n && w < n && Ahead(r, if w < p then p else p - 1) && PathRow(n, w, vs)
    ensures Ahead(MeetTo(r, w, vs, |vs|), if w + 1 < p then p else p - 1)
  {
    forall v | 0 < v < (if w + 1 < p then p else p - 1) && v < n
      ensures MeetTo(r, w, vs, |vs|)[v] != 0
    {
      if w == 0 || w >= p {
        MeetElsewhere(r, w, vs, |vs|, v);
      } else if w + 1 < p {
        MeetKeeps(r, w, vs, |vs|, v);
      } else {
        MeetKeeps(r, w, vs, |vs| - 1, v);
      }
    }
  }

  lemma {:induction false} ForwardLag(adj: Graph, n: nat, c: Labels, p: nat, u: nat)
    requires IsPath(adj, n) && |c| == n && 2 <= p < n && Ahead(c, p) && u <= n
    ensures Ahead(ForwardTo(adj, c, u), if u <= p then p else p - 1)
  {
    if u > 0 {
      ForwardLag(adj, n, c, p, u - 1);
      assert PathRow(n, u - 1, adj[u - 1]);
      PushLag(n, ForwardTo(adj, c, u - 1), p, u - 1, adj[u - 1]);
    }
  }

  lemma {:induction false} BackwardLag(adj: Graph, n: nat, c: Labels, p: nat, u: nat)
    requires IsPath(adj, n) && |c| == n && 2 <= p < n && Ahead(c, p) && u <= n
    ensures Ahead(BackwardTo(adj, c, u), if u < p then p else p - 1)
  {
    if u > 0 {
      BackwardLag(adj, n, c, p, u - 1);
      assert PathRow(n, u - 1, adj[u - 1]);
      MeetLag(n, BackwardTo(adj, c, u - 1), p, u - 1, adj[u - 1]);
    }
  }

  // Each round brings label 0 at most two vertices further down the path.
  lemma {:induction false} RoundsLag(adj: Graph, n: nat, k: nat)
    requires IsPath(adj, n) && 2 * k + 2 < n
    ensures Ahead(Rounds(adj, k), n - 1 - 2 * k)
  {
    if k > 0 {
      RoundsLag(adj, n, k - 1);
      var c, p := Rounds(adj, k - 1), n + 1 - 2 * k;
      ForwardLag(adj, n, c, p, n);
      BackwardLag(adj, n, ForwardTo(adj, c, n), p - 1, n);
    }
  }

  lemma {:induction false} PathIsNear(n: nat, k: nat)
    requires n >= 4 && 0 < k < n
    ensures Near(LongPath(n), 0, k, n - k)
  {
    var adj := LongPath(n);
    if k == 1 {
      assert Near(adj, 0, 0, 0) && Linked(adj, 0, n - 1);
    } else {
      PathIsNear(n, k - 1);
      assert n - k + 1 in adj[n - k];
      assert Linked(adj, n - k + 1, n - k);
    }
  }

  // On a path of 203 vertices or more the cap leaves vertex 1 with the wrong name.
  lemma LongPathIsCutShort(n: nat)
    requires n >= 203
    ensures IsLeast(LongPath(n), 1, 0)
    ensures Descending(Rounds(LongPath(n), MAX_ROUNDS)) && Root(Rounds(LongPath(n), MAX_ROUNDS), 1) != 0
  {
    LongPathIsPath(n);
    RoundsLag(LongPath(n), n, MAX_ROUNDS);
    PathIsNear(n, n - 1);
    RoundsAreSound(LongPath(n), MAX_ROUNDS);
    SoundDescends(LongPath(n), Rounds(LongPath(n), MAX_ROUNDS));
  }
}
