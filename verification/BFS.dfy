// Direction-optimising breadth-first search (algorithm/BFS.cpp) with the sliding queue of
// third-party/gapbs.h, on one thread. A bitmap is an array of bits.
module BFS {
  import opened Hops
  import opened Counting

  // ---- Levels ----

  ghost predicate ExactAt(adj: Graph, root: nat, v: nat, d: int, level: nat) {
    0 <= d <= level && Within(adj, root, d, v) && (d > 0 ==> !Within(adj, root, d - 1, v))
  }

  // v is settled up to `level`; beyond it, v may be unvisited or already found one hop further.
  ghost predicate Settled(adj: Graph, root: nat, dist: seq<int>, level: nat, v: nat) {
    v < |dist| ==>
      if Within(adj, root, level, v) then ExactAt(adj, root, v, dist[v], level)
      else dist[v] < 0 || (dist[v] == level + 1 && Within(adj, root, level + 1, v))
  }

  ghost predicate Partial(adj: Graph, root: nat, dist: seq<int>, level: nat) {
    |dist| == |adj| && forall v {:trigger Settled(adj, root, dist, level, v)} :: Settled(adj, root, dist, level, v)
  }

  ghost predicate Leveled(adj: Graph, root: nat, dist: seq<int>, level: nat) {
    Partial(adj, root, dist, level) && forall v :: 0 <= v < |dist| ==> dist[v] <= level
  }

  // Everything within one more hop has been found.
  lemma NextLevel(adj: Graph, root: nat, dist: seq<int>, level: nat)
    requires Partial(adj, root, dist, level)
    requires forall v: nat :: v < |dist| && Within(adj, root, level + 1, v) ==> dist[v] >= 0
    ensures Leveled(adj, root, dist, level + 1)
  {
    forall v: nat {:trigger Settled(adj, root, dist, level + 1, v)}
      ensures Settled(adj, root, dist, level + 1, v)
    {
      assert Settled(adj, root, dist, level, v);
    }
    forall v | 0 <= v < |dist|
      ensures dist[v] <= level + 1
    {
      assert Settled(adj, root, dist, level, v);
    }
  }

  // A vertex found one hop further has a neighbour on the last level.
  lemma FoundFromLastLevel(adj: Graph, root: nat, dist: seq<int>, level: nat, v: nat) returns (u: nat)
    requires Closed(adj) && Partial(adj, root, dist, level) && root < |adj|
    requires Within(adj, root, level + 1, v) && !Within(adj, root, level, v)
    ensures u < |dist| && dist[u] == level && Edge(adj, u, v)
  {
    u :| Within(adj, root, level, u) && Edge(adj, u, v);
    assert Settled(adj, root, dist, level, u);
    if dist[u] < level {
      WithinGrows(adj, root, dist[u], level - 1, u);
    }
  }

  // ---- Counting ----

  function Unvisited(dist: seq<int>, n: nat): nat
    requires n <= |dist|
  {
    if n == 0 then 0 else Unvisited(dist, n - 1) + if dist[n - 1] < 0 then 1 else 0
  }

  lemma {:induction false} VisitCounts(dist: seq<int>, n: nat, v: nat, d: nat)
    requires n <= |dist| && v < |dist| && dist[v] < 0
    ensures Unvisited(dist[v := d], n) == Unvisited(dist, n) - if v < n then 1 else 0
  {
    if n > 0 {
      VisitCounts(dist, n - 1, v, d);
    }
  }

  // The guesses of the unvisited vertices, together: the edges that top-down steps expect to check.
  function Guesses(dist: seq<int>, n: nat): nat
    requires n <= |dist|
  {
    if n == 0 then 0 else Guesses(dist, n - 1) + if dist[n - 1] < 0 then -dist[n - 1] else 0
  }

  lemma {:induction false} VisitTakesGuess(dist: seq<int>, n: nat, v: nat, d: nat)
    requires n <= |dist| && v < |dist| && dist[v] < 0
    ensures Guesses(dist[v := d], n) == Guesses(dist, n) + if v < n then dist[v] else 0
  {
    if n > 0 {
      VisitTakesGuess(dist, n - 1, v, d);
    }
  }

  function Total(degree: seq<nat>, n: nat): nat
    requires n <= |degree|
  {
    if n == 0 then 0 else Total(degree, n - 1) + degree[n - 1]
  }

  // ---- Queue and front ----

  // The queue never holds a vertex twice, and only visited ones.
  ghost predicate Queued(q: seq<nat>, dist: seq<int>) {
    Distinct(q) && forall i :: 0 <= i < |q| ==> q[i] < |dist| && dist[q[i]] >= 0
  }

  // s lists the vertices at distance d.
  ghost predicate Lists(s: seq<nat>, dist: seq<int>, d: nat) {
    forall v {:trigger Listed(s, dist, d, v)} :: Listed(s, dist, d, v)
  }

  ghost predicate Listed(s: seq<nat>, dist: seq<int>, d: nat, v: nat) {
    v in s <==> v < |dist| && dist[v] == d
  }

  ghost predicate Extends(before: seq<int>, after: seq<int>) {
    |before| == |after| && forall v :: 0 <= v < |before| && before[v] >= 0 ==> after[v] == before[v]
  }

  // All neighbours of v have been visited.
  ghost predicate Exhausted(adj: Graph, dist: seq<int>, v: nat) {
    forall w: nat {:trigger Edge(adj, v, w)} :: Edge(adj, v, w) && w < |dist| ==> dist[w] >= 0
  }

  // A bit set in the front belongs to the last level or, left over from an earlier phase, to a
  // vertex with no unvisited neighbour.
  ghost predicate Harmless(adj: Graph, dist: seq<int>, level: nat, front: seq<bool>) {
    |front| == |dist| &&
    forall v :: 0 <= v < |front| && front[v] ==> dist[v] >= 0 && (dist[v] == level || Exhausted(adj, dist, v))
  }

  ghost predicate FrontOk(adj: Graph, dist: seq<int>, level: nat, front: seq<bool>) {
    Harmless(adj, dist, level, front) && forall v :: 0 <= v < |dist| && dist[v] == level ==> front[v]
  }

  // Once a level is complete, its own bits are harmless leftovers.
  lemma LeftoversAreHarmless(adj: Graph, root: nat, before: seq<int>, after: seq<int>, level: nat, front: seq<bool>)
    requires Closed(adj) && Leveled(adj, root, before, level) && Leveled(adj, root, after, level + 1)
    requires Extends(before, after) && Harmless(adj, before, level, front)
    ensures Harmless(adj, after, level + 1, front)
  {
    forall v | 0 <= v < |front| && front[v]
      ensures after[v] >= 0 && Exhausted(adj, after, v)
    {
      forall w: nat {:trigger Edge(adj, v, w)} | Edge(adj, v, w) && w < |after|
        ensures after[w] >= 0
      {
        if before[v] == level {
          assert Settled(adj, root, before, level, v);
          assert Within(adj, root, level + 1, w);
          assert Settled(adj, root, after, level + 1, w);
        }
      }
    }
  }

  // What a step of the search knows: `found` is what it has added to the queue q.
  ghost predicate Progress(adj: Graph, root: nat, dist: seq<int>, level: nat, q: seq<nat>, found: seq<nat>) {
    Partial(adj, root, dist, level) && Queued(q, dist) && Lists(found, dist, level + 1)
  }

  lemma Discover(adj: Graph, root: nat, dist: seq<int>, level: nat, q: seq<nat>, found: seq<nat>, u: nat, v: nat)
    requires Closed(adj) && Progress(adj, root, dist, level, q, found)
    requires u < |dist| && dist[u] == level && Edge(adj, u, v) && v < |dist| && dist[v] < 0
    ensures |q| < |dist| && Progress(adj, root, dist[v := level + 1], level, q + [v], found + [v])
    ensures Unvisited(dist[v := level + 1], |dist|) == Unvisited(dist, |dist|) - 1
  {
    var after := dist[v := level + 1];
    DiscoverSettled(adj, root, dist, level, u, v);
    assert v !in q;
    RoomFor(q, |dist|, v);
    VisitCounts(dist, |dist|, v, level + 1);
    forall x: nat {:trigger Listed(found + [v], after, level + 1, x)}
      ensures Listed(found + [v], after, level + 1, x)
    {
      assert Listed(found, dist, level + 1, x);
    }
  }

  lemma DiscoverSettled(adj: Graph, root: nat, dist: seq<int>, level: nat, u: nat, v: nat)
    requires Partial(adj, root, dist, level)
    requires u < |dist| && dist[u] == level && Edge(adj, u, v) && v < |dist| && dist[v] < 0
    ensures Partial(adj, root, dist[v := level + 1], level)
  {
    var after := dist[v := level + 1];
    assert Settled(adj, root, dist, level, u) && Settled(adj, root, dist, level, v);
    assert Within(adj, root, level + 1, v);
    forall x: nat {:trigger Settled(adj, root, after, level, x)}
      ensures Settled(adj, root, after, level, x)
    {
      assert Settled(adj, root, dist, level, x);
    }
  }

  class SlidingQueue {
    const shared: array<nat>
    var sharedIn: nat
    var outStart: nat
    var outEnd: nat

    ghost predicate Valid()
      reads this
    {
      outStart <= outEnd <= sharedIn <= shared.Length
    }

    ghost function All(): seq<nat>
      requires Valid()
      reads this, shared
    {
      shared[..sharedIn]
    }

    // What the current window shows, and what waits behind it.
    ghost function Window(): seq<nat>
      requires Valid()
      reads this, shared
    {
      shared[outStart..outEnd]
    }

    ghost function Waiting(): seq<nat>
      requires Valid()
      reads this, shared
    {
      shared[outEnd..sharedIn]
    }

    constructor (size: nat)
      ensures Valid() && fresh(shared) && shared.Length == size && sharedIn == 0
    {
      shared := new nat[size];
      sharedIn, outStart, outEnd := 0, 0, 0;
    }

    method PushBack(x: nat)
      requires Valid() && sharedIn < shared.Length
      modifies this`sharedIn, shared
      ensures Valid() && All() == old(All()) + [x]
      ensures Window() == old(Window()) && Waiting() == old(Waiting()) + [x]
    {
      shared[sharedIn] := x;
      sharedIn := sharedIn + 1;
    }

    method SlideWindow()
      requires Valid()
      modifies this`outStart, this`outEnd
      ensures Valid() && All() == old(All()) && Window() == old(Waiting()) && Waiting() == []
    {
      outStart := outEnd;
      outEnd := sharedIn;
    }
  }

  // An unvisited neighbour gets its distance and joins the queue.
  method Visit(adj: Graph, ghost root: nat, ghost u: nat, dst: nat, distance: nat, queue: SlidingQueue,
               distances: array<int>)
    requires Closed(adj) && u < |adj| == distances.Length == queue.shared.Length && 0 < distance
    requires distances[u] == distance - 1
    requires queue.Valid() && Progress(adj, root, distances[..], distance - 1, queue.All(), queue.Waiting())
    requires dst in adj[u] && dst < |adj| && distances[dst] < 0
    modifies distances, queue`sharedIn, queue.shared
    ensures queue.Valid() && Progress(adj, root, distances[..], distance - 1, queue.All(), queue.Waiting())
    ensures queue.Window() == old(queue.Window()) && distances[..] == old(distances[..])[dst := distance]
    ensures Guesses(distances[..], |adj|) == old(Guesses(distances[..], |adj|) + distances[dst])
    ensures Unvisited(distances[..], |adj|) + |queue.Waiting()| ==
        old(Unvisited(distances[..], |adj|) + |queue.Waiting()|)
  {
    assert Edge(adj, u, dst);
    Discover(adj, root, distances[..], distance - 1, queue.All(), queue.Waiting(), u, dst);
    ghost var before := distances[..];
    distances[dst] := distance;
    assert distances[..] == before[dst := distance];
    VisitTakesGuess(before, |adj|, dst, distance);
    queue.PushBack(dst);
  }

  // The edges of one vertex in a top-down step.
  method Expand(adj: Graph, ghost root: nat, u: nat, distance: nat, queue: SlidingQueue, distances: array<int>)
    returns (scout: int)
    requires Closed(adj) && u < |adj| == distances.Length == queue.shared.Length && 0 < distance
    requires distances[u] == distance - 1
    requires queue.Valid() && Progress(adj, root, distances[..], distance - 1, queue.All(), queue.Waiting())
    modifies distances, queue`sharedIn, queue.shared
    ensures queue.Valid() && Progress(adj, root, distances[..], distance - 1, queue.All(), queue.Waiting())
    ensures queue.Window() == old(queue.Window()) && Extends(old(distances[..]), distances[..])
    ensures Exhausted(adj, distances[..], u)
    ensures scout + Guesses(distances[..], |adj|) == old(Guesses(distances[..], |adj|))
    ensures Unvisited(distances[..], |adj|) + |queue.Waiting()| ==
        old(Unvisited(distances[..], |adj|) + |queue.Waiting()|)
  {
    scout := 0;
    var j := 0;
    while j < |adj[u]|
      invariant 0 <= j <= |adj[u]| && distances[u] == distance - 1
      invariant queue.Valid() && Progress(adj, root, distances[..], distance - 1, queue.All(), queue.Waiting())
      invariant queue.Window() == old(queue.Window()) && Extends(old(distances[..]), distances[..])
      invariant forall i :: 0 <= i < j ==> distances[adj[u][i]] >= 0
      invariant scout + Guesses(distances[..], |adj|) == old(Guesses(distances[..], |adj|))
      invariant Unvisited(distances[..], |adj|) + |queue.Waiting()| ==
          old(Unvisited(distances[..], |adj|) + |queue.Waiting()|)
    {
      var dst := adj[u][j];
      var curr := distances[dst];
      if curr < 0 {
        Visit(adj, root, u, dst, distance, queue, distances);
        scout := scout - curr;
      }
      j := j + 1;
    }
  }

  // Every vertex of s is at distance d.
  ghost predicate AllAt(s: seq<nat>, dist: seq<int>, d: int) {
    forall m :: 0 <= m < |s| ==> s[m] < |dist| && dist[s[m]] == d
  }

  lemma ListedAreAt(s: seq<nat>, dist: seq<int>, d: nat)
    requires Lists(s, dist, d)
    ensures AllAt(s, dist, d)
  {
    forall m | 0 <= m < |s|
      ensures s[m] < |dist| && dist[s[m]] == d
    {
      assert Listed(s, dist, d, s[m]);
    }
  }

  method ExpandWindow(adj: Graph, ghost root: nat, distance: nat, queue: SlidingQueue, distances: array<int>)
    returns (scout: int)
    requires Closed(adj) && |adj| == distances.Length == queue.shared.Length && 0 < distance && queue.Valid()
    requires Progress(adj, root, distances[..], distance - 1, queue.All(), queue.Waiting())
    requires AllAt(queue.Window(), distances[..], distance - 1)
    modifies distances, queue`sharedIn, queue.shared
    ensures queue.Valid() && Progress(adj, root, distances[..], distance - 1, queue.All(), queue.Waiting())
    ensures Extends(old(distances[..]), distances[..])
    ensures AllExhausted(adj, distances[..], old(queue.Window()), |old(queue.Window())|)
    ensures scout + Guesses(distances[..], |adj|) == old(Guesses(distances[..], |adj|))
    ensures Unvisited(distances[..], |adj|) + |queue.Waiting()| ==
        old(Unvisited(distances[..], |adj|) + |queue.Waiting()|)
  {
    scout := 0;
    ghost var window := queue.Window();
    var i := queue.outStart;
    while i < queue.outEnd
      invariant queue.outStart <= i <= queue.outEnd
      invariant queue.Valid() && Progress(adj, root, distances[..], distance - 1, queue.All(), queue.Waiting())
      invariant queue.Window() == window && AllAt(window, distances[..], distance - 1)
      invariant Extends(old(distances[..]), distances[..])
      invariant AllExhausted(adj, distances[..], window, i - queue.outStart)
      invariant scout + Guesses(distances[..], |adj|) == old(Guesses(distances[..], |adj|))
      invariant Unvisited(distances[..], |adj|) + |queue.Waiting()| ==
          old(Unvisited(distances[..], |adj|) + |queue.Waiting()|)
    {
      var u := queue.shared[i];
      assert u == window[i - queue.outStart];
      ghost var before := distances[..];
      var more := Expand(adj, root, u, distance, queue, distances);
      StaysExhausted(adj, before, distances[..], window, i - queue.outStart);
      scout := scout + more;
      i := i + 1;
    }
  }

  // do_bfs_TDStep: every vertex in the window visits its unvisited neighbours.
  method TDStep(adj: Graph, ghost root: nat, distance: nat, queue: SlidingQueue, distances: array<int>)
    returns (scout: int)
    requires Closed(adj) && root < |adj| == distances.Length == queue.shared.Length && 0 < distance
    requires Leveled(adj, root, distances[..], distance - 1)
    requires queue.Valid() && Queued(queue.All(), distances[..]) && queue.Waiting() == []
    requires Lists(queue.Window(), distances[..], distance - 1)
    modifies distances, queue`sharedIn, queue.shared
    ensures queue.Valid() && Queued(queue.All(), distances[..]) && Lists(queue.Waiting(), distances[..], distance)
    ensures Leveled(adj, root, distances[..], distance) && Extends(old(distances[..]), distances[..])
    ensures Unvisited(distances[..], |adj|) + |queue.Waiting()| == old(Unvisited(distances[..], |adj|))
    ensures scout + Guesses(distances[..], |adj|) == old(Guesses(distances[..], |adj|))
  {
    ghost var before, window := distances[..], queue.Window();
    ListedAreAt(window, before, distance - 1);
    NothingFurther(before, distance - 1);
    scout := ExpandWindow(adj, root, distance, queue, distances);
    TDCompletes(adj, root, before, distances[..], distance - 1, window);
  }

  lemma NothingFurther(dist: seq<int>, level: nat)
    requires forall v :: 0 <= v < |dist| ==> dist[v] <= level
    ensures Lists([], dist, level + 1)
  {
    forall v: nat {:trigger Listed([], dist, level + 1, v)}
      ensures Listed([], dist, level + 1, v)
    {
    }
  }

  ghost predicate AllExhausted(adj: Graph, dist: seq<int>, window: seq<nat>, n: int) {
    0 <= n <= |window| && forall m {:trigger window[m]} :: 0 <= m < n ==> Exhausted(adj, dist, window[m])
  }

  lemma StaysExhausted(adj: Graph, before: seq<int>, after: seq<int>, window: seq<nat>, n: nat)
    requires Extends(before, after) && AllExhausted(adj, before, window, n)
    requires n < |window| && Exhausted(adj, after, window[n])
    ensures AllExhausted(adj, after, window, n + 1)
  {
    forall m | 0 <= m < n
      ensures Exhausted(adj, after, window[m])
    {
      forall w: nat {:trigger Edge(adj, window[m], w)} | Edge(adj, window[m], w) && w < |after|
        ensures after[w] >= 0
      {
        assert Exhausted(adj, before, window[m]);
      }
    }
  }

  lemma TDCompletes(adj: Graph, root: nat, before: seq<int>, after: seq<int>, level: nat, window: seq<nat>)
    requires Closed(adj) && root < |adj| && Leveled(adj, root, before, level) && Partial(adj, root, after, level)
    requires Extends(before, after) && Lists(window, before, level)
    requires AllExhausted(adj, after, window, |window|)
    ensures Leveled(adj, root, after, level + 1)
  {
    forall v: nat | v < |after| && Within(adj, root, level + 1, v)
      ensures after[v] >= 0
    {
      assert Settled(adj, root, after, level, v);
      if !Within(adj, root, level, v) {
        var u := FoundFromLastLevel(adj, root, before, level, v);
        assert Listed(window, before, level, u);
        var m :| 0 <= m < |window| && window[m] == u;
        assert Exhausted(adj, after, window[m]);
      }
    }
    NextLevel(adj, root, after, level);
  }

  // ---- Bottom up ----

  // What the bottom-up step knows after the first u vertices.
  ghost predicate Swept(adj: Graph, root: nat, before: seq<int>, dist: seq<int>, level: nat, next: seq<bool>, u: nat) {
    && Partial(adj, root, dist, level) && Extends(before, dist) && |next| == |dist| && u <= |dist|
    && (forall v :: u <= v < |dist| ==> !next[v] && dist[v] == before[v])
    && (forall v :: 0 <= v < u ==> (next[v] <==> dist[v] == level + 1))
    && (forall v: nat :: v < u && Within(adj, root, level + 1, v) ==> dist[v] >= 0)
  }

  lemma SweepExtends(adj: Graph, root: nat, before: seq<int>, dist: seq<int>, level: nat, next: seq<bool>, u: nat)
    requires Swept(adj, root, before, dist, level, next, u) && u < |dist| && dist[u] < 0
    requires Partial(adj, root, dist[u := level + 1], level)
    ensures Swept(adj, root, before, dist[u := level + 1], level, next[u := true], u + 1)
  {
  }

  lemma SweepFinds(adj: Graph, root: nat, before: seq<int>, dist: seq<int>, level: nat, next: seq<bool>, u: nat,
                   front: seq<bool>, v: nat)
    requires Closed(adj) && Symmetric(adj) && Leveled(adj, root, before, level)
    requires Swept(adj, root, before, dist, level, next, u) && FrontOk(adj, before, level, front)
    requires u < |dist| && dist[u] < 0 && Edge(adj, u, v) && v < |dist| && front[v]
    ensures Swept(adj, root, before, dist[u := level + 1], level, next[u := true], u + 1)
    ensures Unvisited(dist[u := level + 1], |dist|) == Unvisited(dist, |dist|) - 1
  {
    assert Edge(adj, v, u);
    assert before[v] == level == dist[v];
    DiscoverSettled(adj, root, dist, level, v, u);
    SweepExtends(adj, root, before, dist, level, next, u);
    VisitCounts(dist, |dist|, u, level + 1);
  }

  lemma ReachableHasFront(adj: Graph, root: nat, before: seq<int>, level: nat, u: nat, front: seq<bool>)
    returns (v: nat)
    requires Closed(adj) && Symmetric(adj) && root < |adj| && Leveled(adj, root, before, level)
    requires FrontOk(adj, before, level, front)
    requires u < |before| && before[u] < 0 && Within(adj, root, level + 1, u)
    ensures v < |front| && v in adj[u] && front[v]
  {
    assert Settled(adj, root, before, level, u);
    v := FoundFromLastLevel(adj, root, before, level, u);
    assert Edge(adj, u, v);
  }

  lemma SweepSkips(adj: Graph, root: nat, before: seq<int>, dist: seq<int>, level: nat, next: seq<bool>, u: nat,
                   front: seq<bool>)
    requires Closed(adj) && Symmetric(adj) && root < |adj| && Leveled(adj, root, before, level)
    requires Swept(adj, root, before, dist, level, next, u) && FrontOk(adj, before, level, front) && u < |dist|
    requires dist[u] < 0 ==> forall v :: v in adj[u] ==> !front[v]
    ensures Swept(adj, root, before, dist, level, next, u + 1)
  {
    if dist[u] < 0 && Within(adj, root, level + 1, u) {
      var v := ReachableHasFront(adj, root, before, level, u, front);
    }
  }

  // Does any neighbour of u carry a front bit? The scan stops at the first.
  method AnyInFront(adj: Graph, u: nat, front: array<bool>) returns (found: bool, ghost at: nat)
    requires Closed(adj) && u < |adj| == front.Length
    ensures found ==> Edge(adj, u, at) && at < front.Length && front[at]
    ensures !found ==> forall v :: v in adj[u] ==> !front[v]
  {
    at := 0;
    var j := 0;
    while j < |adj[u]|
      invariant 0 <= j <= |adj[u]|
      invariant forall i :: 0 <= i < j ==> !front[adj[u][i]]
    {
      if front[adj[u][j]] {
        at := adj[u][j];
        return true, at;
      }
      j := j + 1;
    }
    return false, at;
  }

  method Reset(bits: array<bool>)
    modifies bits
    ensures forall v :: 0 <= v < bits.Length ==> !bits[v]
  {
    for i := 0 to bits.Length
      invariant forall v :: 0 <= v < i ==> !bits[v]
    {
      bits[i] := false;
    }
  }

  // One vertex of the sweep: unvisited, it is found if a neighbour is in front.
  method SweepVertex(adj: Graph, ghost root: nat, ghost before: seq<int>, distance: nat, u: nat, front: array<bool>,
                     next: array<bool>, distances: array<int>)
    returns (woke: bool)
    requires Closed(adj) && Symmetric(adj) && root < |adj| == distances.Length == front.Length == next.Length
    requires 0 < distance && front != next && u < |adj|
    requires Leveled(adj, root, before, distance - 1) && FrontOk(adj, before, distance - 1, front[..])
    requires Swept(adj, root, before, distances[..], distance - 1, next[..], u)
    modifies distances, next
    ensures Swept(adj, root, before, distances[..], distance - 1, next[..], u + 1)
    ensures Unvisited(distances[..], |adj|) + (if woke then 1 else 0) == old(Unvisited(distances[..], |adj|))
    ensures next[..] == if woke then old(next[..])[u := true] else old(next[..])
  {
    ghost var dist, bits := distances[..], next[..];
    woke := false;
    if distances[u] < 0 {
      var found, at := AnyInFront(adj, u, front);
      if found {
        SweepFinds(adj, root, before, dist, distance - 1, bits, u, front[..], at);
        distances[u] := distance;
        woke := true;
        next[u] := true;
        assert distances[..] == dist[u := distance] && next[..] == bits[u := true];
      } else {
        SweepSkips(adj, root, before, dist, distance - 1, bits, u, front[..]);
      }
    } else {
      SweepSkips(adj, root, before, dist, distance - 1, bits, u, front[..]);
    }
  }

  // do_bfs_BUStep: every unvisited vertex looks for a neighbour in the front.
  method BUStep(adj: Graph, ghost root: nat, distance: nat, front: array<bool>, next: array<bool>,
                distances: array<int>)
    returns (awake: nat)
    requires Closed(adj) && Symmetric(adj) && root < |adj| == distances.Length == front.Length == next.Length
    requires 0 < distance && front != next
    requires Leveled(adj, root, distances[..], distance - 1) && FrontOk(adj, distances[..], distance - 1, front[..])
    modifies distances, next
    ensures Leveled(adj, root, distances[..], distance) && Extends(old(distances[..]), distances[..])
    ensures forall v :: 0 <= v < |adj| ==> (next[v] <==> distances[v] == distance)
    ensures Unvisited(distances[..], |adj|) + awake == old(Unvisited(distances[..], |adj|))
    ensures awake == 0 ==> forall v :: 0 <= v < |adj| ==> !next[v]
  {
    ghost var before := distances[..];
    Reset(next);
    awake := 0;
    var u := 0;
    while u < |adj|
      invariant 0 <= u <= |adj|
      invariant Swept(adj, root, before, distances[..], distance - 1, next[..], u)
      invariant Unvisited(distances[..], |adj|) + awake == Unvisited(before, |adj|)
      invariant awake == 0 ==> forall v :: 0 <= v < u ==> !next[..][v]
    {
      var woke := SweepVertex(adj, root, before, distance, u, front, next, distances);
      awake := awake + if woke then 1 else 0;
      u := u + 1;
    }
    NextLevel(adj, root, distances[..], distance - 1);
  }

  // The bottom-up rounds: at least one, and more while the front does not shrink or is large.
  method BottomUp(adj: Graph, ghost root: nat, from: nat, beta: nat, size: nat, bits: array<bool>, spare: array<bool>,
                  distances: array<int>)
    returns (distance: nat, front: array<bool>, curr: array<bool>)
    requires Closed(adj) && Symmetric(adj) && root < |adj| == distances.Length == bits.Length == spare.Length
    requires 0 < from && 0 < beta && 0 < size && bits != spare
    requires Leveled(adj, root, distances[..], from - 1) && FrontOk(adj, distances[..], from - 1, bits[..])
    modifies distances, bits, spare
    ensures (front == bits && curr == spare) || (front == spare && curr == bits)
    ensures distance > from && Leveled(adj, root, distances[..], distance - 1)
    ensures Extends(old(distances[..]), distances[..])
    ensures forall v :: 0 <= v < |adj| ==> (front[v] <==> distances[v] == distance - 1)
    ensures Unvisited(distances[..], |adj|) < old(Unvisited(distances[..], |adj|)) ||
            forall v :: 0 <= v < |adj| ==> !front[v]
    ensures Unvisited(distances[..], |adj|) <= old(Unvisited(distances[..], |adj|))
  {
    distance, front, curr := from, bits, spare;
    var awake, again := size, true;
    while again
      invariant (front == bits && curr == spare) || (front == spare && curr == bits)
      invariant distance >= from && Leveled(adj, root, distances[..], distance - 1)
      invariant FrontOk(adj, distances[..], distance - 1, front[..])
      invariant Extends(old(distances[..]), distances[..])
      invariant again ==> awake > 0
      invariant distance == from ==> again
      invariant distance > from ==> forall v :: 0 <= v < |adj| ==> (front[v] <==> distances[v] == distance - 1)
      invariant Unvisited(distances[..], |adj|) <= old(Unvisited(distances[..], |adj|))
      invariant distance > from ==>
                  Unvisited(distances[..], |adj|) < old(Unvisited(distances[..], |adj|)) ||
                  forall v :: 0 <= v < |adj| ==> !front[v]
      decreases Unvisited(distances[..], |adj|), again
    {
      var oldAwake := awake;
      awake := BUStep(adj, root, distance, front, curr, distances);
      front, curr := curr, front;
      distance := distance + 1;
      again := awake >= oldAwake || awake > |adj| / beta;
    }
  }

  lemma FrontFilled(adj: Graph, dist: seq<int>, level: nat, window: seq<nat>, was: seq<bool>, front: seq<bool>)
    requires Lists(window, dist, level) && Harmless(adj, dist, level, was) && |front| == |was|
    requires forall v :: 0 <= v < |front| ==> (front[v] <==> was[v] || v in window)
    ensures FrontOk(adj, dist, level, front)
  {
    forall v | 0 <= v < |front|
      ensures dist[v] == level ==> front[v]
      ensures front[v] ==> was[v] || dist[v] == level
    {
      assert Listed(window, dist, level, v);
    }
  }

  method QueueToBitmap(queue: SlidingQueue, front: array<bool>)
    requires queue.Valid() && forall m :: 0 <= m < |queue.Window()| ==> queue.Window()[m] < front.Length
    modifies front
    ensures forall v :: 0 <= v < front.Length ==> (front[v] <==> old(front[v]) || v in queue.Window())
  {
    ghost var window := queue.Window();
    var i := queue.outStart;
    while i < queue.outEnd
      invariant queue.outStart <= i <= queue.outEnd
      invariant forall v :: 0 <= v < front.Length ==> (front[v] <==> old(front[v]) || v in window[..i - queue.outStart])
    {
      var m := i - queue.outStart;
      assert window[..m + 1] == window[..m] + [window[m]];
      assert queue.shared[i] == window[m] && window[m] in queue.Window();
      front[queue.shared[i]] := true;
      i := i + 1;
    }
    assert window[..i - queue.outStart] == window;
  }

  // The queue q has taken over the front up to vertex n; `waiting` is what it took.
  ghost predicate Refilled(q: seq<nat>, waiting: seq<nat>, dist: seq<int>, level: nat, n: nat) {
    && Queued(q, dist) && (forall i :: 0 <= i < |q| ==> dist[q[i]] < level || q[i] < n)
    && forall x: nat :: x in waiting <==> x < n && x < |dist| && dist[x] == level
  }

  lemma RefillOne(q: seq<nat>, waiting: seq<nat>, dist: seq<int>, level: nat, n: nat)
    requires Refilled(q, waiting, dist, level, n) && n < |dist|
    ensures dist[n] == level ==> |q| < |dist| && Refilled(q + [n], waiting + [n], dist, level, n + 1)
    ensures dist[n] != level ==> Refilled(q, waiting, dist, level, n + 1)
  {
    if dist[n] == level {
      assert n !in q;
      RoomFor(q, |dist|, n);
    }
  }

  // The last front goes back into the queue, which still has room for it.
  lemma RefilledLists(q: seq<nat>, waiting: seq<nat>, dist: seq<int>, level: nat)
    requires Refilled(q, waiting, dist, level, |dist|)
    ensures Lists(waiting, dist, level)
  {
    forall v: nat {:trigger Listed(waiting, dist, level, v)}
      ensures Listed(waiting, dist, level, v)
    {
    }
  }

  method BitmapToQueue(front: array<bool>, queue: SlidingQueue, ghost dist: seq<int>, ghost level: nat)
    requires front.Length == |dist| == queue.shared.Length && queue.Valid() && queue.Waiting() == []
    requires Queued(queue.All(), dist) && forall i :: 0 <= i < |queue.All()| ==> dist[queue.All()[i]] < level
    requires forall v :: 0 <= v < |dist| ==> (front[v] <==> dist[v] == level)
    modifies queue`sharedIn, queue.shared
    ensures queue.Valid() && Queued(queue.All(), dist) && Lists(queue.Waiting(), dist, level)
  {
    for v := 0 to front.Length
      invariant queue.Valid() && Refilled(queue.All(), queue.Waiting(), dist, level, v)
    {
      RefillOne(queue.All(), queue.Waiting(), dist, level, v);
      if front[v] {
        queue.PushBack(v);
      }
    }
    RefilledLists(queue.All(), queue.Waiting(), dist, level);
  }

  // With an empty last level the search is over: every distance is the hop distance.
  lemma Finished(adj: Graph, root: nat, dist: seq<int>, level: nat, v: nat)
    requires Closed(adj) && root < |adj| && Leveled(adj, root, dist, level) && Lists([], dist, level) && v < |dist|
    ensures IsHopDistance(adj, root, v, dist[v])
  {
    assert Settled(adj, root, dist, level, root) && Settled(adj, root, dist, level, v);
    RootIsWithin(adj, root, level);
    if dist[root] > 0 {
      RootIsWithin(adj, root, dist[root] - 1);
    }
    assert Listed([], dist, level, root);
    assert level != dist[root];
    forall x: nat | Within(adj, root, level, x)
      ensures Within(adj, root, level - 1, x)
    {
      WithinIsVertex(adj, root, level, x);
      assert Settled(adj, root, dist, level, x);
      assert Listed([], dist, level, x);
      WithinGrows(adj, root, dist[x], level - 1, x);
    }
    if dist[v] < 0 {
      forall k | Within(adj, root, k, v)
        ensures false
      {
        Saturated(adj, root, level - 1, k, v);
      }
    }
  }

  lemma AllFinished(adj: Graph, root: nat, dist: seq<int>, level: nat, window: seq<nat>)
    requires Closed(adj) && root < |adj| && Leveled(adj, root, dist, level) && Lists(window, dist, level)
    requires window == []
    ensures forall v :: 0 <= v < |dist| ==> IsHopDistance(adj, root, v, dist[v])
  {
    forall v | 0 <= v < |dist|
      ensures IsHopDistance(adj, root, v, dist[v])
    {
      Finished(adj, root, dist, level, v);
    }
  }

  // Division of the source: towards zero.
  function Quotient(a: int, b: int): int
    requires b > 0
  {
    if a >= 0 then a / b else -((-a) / b)
  }

  // What an unvisited vertex is marked with: its degree, negated, and never 0.
  function Guess(degree: int): int {
    if degree != 0 then -degree else -1
  }

  // init_distance: a negative guess everywhere, larger for vertices of larger degree.
  method InitDistance(degree: seq<nat>, distances: array<int>) returns (edges: int)
    requires |degree| == distances.Length
    modifies distances
    ensures forall v :: 0 <= v < |degree| ==> distances[v] == Guess(degree[v])
    ensures edges == Total(degree, |degree|) / 2
  {
    var total := 0;
    for n := 0 to |degree|
      invariant forall v :: 0 <= v < n ==> distances[v] == Guess(degree[v])
      invariant total == Total(degree, n)
    {
      total := total + degree[n];
      distances[n] := Guess(degree[n]);
    }
    edges := total / 2;
  }

  // A queue holding nothing but the root.
  lemma OnlyRoot(root: nat, dist: seq<int>, q: seq<nat>)
    requires root < |dist| && dist[root] == 0 && forall v :: 0 <= v < |dist| && v != root ==> dist[v] < 0
    requires |q| == 1 && q[0] == root
    ensures Queued(q, dist) && Lists(q, dist, 0)
  {
    forall v: nat {:trigger Listed(q, dist, 0, v)}
      ensures Listed(q, dist, 0, v)
    {
    }
  }

  lemma StartLevel(adj: Graph, root: nat, dist: seq<int>)
    requires root < |adj| == |dist| && dist[root] == 0 && forall v :: 0 <= v < |dist| && v != root ==> dist[v] < 0
    ensures Leveled(adj, root, dist, 0)
  {
    forall v: nat {:trigger Settled(adj, root, dist, 0, v)}
      ensures Settled(adj, root, dist, 0, v)
    {
    }
  }

  // The search between two phases: level complete, listed by the window, leftovers harmless.
  ghost predicate AtLevel(adj: Graph, root: nat, dist: seq<int>, level: int, queue: SlidingQueue, front: seq<bool>)
    reads queue, queue.shared
  {
    && level >= 0 && queue.Valid() && queue.Waiting() == [] && Lists(queue.Window(), dist, level)
    && Leveled(adj, root, dist, level) && Queued(queue.All(), dist) && Harmless(adj, dist, level, front)
  }

  // A phase visits new vertices or leaves an empty window.
  ghost predicate Advances(before: seq<int>, after: seq<int>, queue: SlidingQueue)
    requires queue.Valid()
    reads queue, queue.shared
  {
    Unvisited(after, |after|) < Unvisited(before, |before|) ||
    (Unvisited(after, |after|) == Unvisited(before, |before|) && queue.Window() == [])
  }

  // One top-down phase of the main loop.
  method TopDownPhase(adj: Graph, ghost root: nat, from: nat, queue: SlidingQueue, ghost front: seq<bool>,
                      distances: array<int>)
    returns (scout: int)
    requires Closed(adj) && root < |adj| == distances.Length == queue.shared.Length
    requires AtLevel(adj, root, distances[..], from - 1, queue, front)
    modifies distances, queue, queue.shared
    ensures AtLevel(adj, root, distances[..], from, queue, front) && Advances(old(distances[..]), distances[..], queue)
    ensures scout + Guesses(distances[..], |adj|) == old(Guesses(distances[..], |adj|))
  {
    scout := TDStep(adj, root, from, queue, distances);
    ghost var found := queue.Waiting();
    queue.SlideWindow();
    LeftoversAreHarmless(adj, root, old(distances[..]), distances[..], from - 1, front);
    assert |found| == 0 ==> queue.Window() == [];
  }

  // Queue to bitmap: the window moves into the front, next to harmless leftovers.
  method FillFront(adj: Graph, ghost root: nat, ghost dist: seq<int>, ghost level: int, queue: SlidingQueue,
                   bits: array<bool>) returns (size: nat)
    requires AtLevel(adj, root, dist, level, queue, bits[..]) && queue.Window() != []
    modifies bits, queue`outStart, queue`outEnd
    ensures size > 0 && FrontOk(adj, dist, level, bits[..])
    ensures queue.Valid() && queue.Waiting() == [] && queue.All() == old(queue.All())
  {
    ghost var was, window := bits[..], queue.Window();
    ListedAreAt(window, dist, level);
    QueueToBitmap(queue, bits);
    FrontFilled(adj, dist, level, window, was, bits[..]);
    size := queue.outEnd - queue.outStart;
    queue.SlideWindow();
  }

  lemma StillQueued(before: seq<int>, after: seq<int>, q: seq<nat>)
    requires Extends(before, after) && Queued(q, before)
    ensures Queued(q, after) && forall i :: 0 <= i < |q| ==> after[q[i]] == before[q[i]]
  {
  }

  // Bitmap to queue: the last front becomes the window.
  method RefillWindow(adj: Graph, ghost root: nat, ghost dist: seq<int>, ghost level: nat, queue: SlidingQueue,
                      front: array<bool>)
    requires Leveled(adj, root, dist, level) && front.Length == |dist| == queue.shared.Length
    requires queue.Valid() && queue.Waiting() == [] && Queued(queue.All(), dist)
    requires forall i :: 0 <= i < |queue.All()| ==> dist[queue.All()[i]] < level
    requires forall v :: 0 <= v < |dist| ==> (front[v] <==> dist[v] == level)
    modifies queue, queue.shared
    ensures AtLevel(adj, root, dist, level, queue, front[..])
    ensures (forall v :: 0 <= v < |dist| ==> !front[v]) ==> queue.Window() == []
  {
    BitmapToQueue(front, queue, dist, level);
    queue.SlideWindow();
    ListedAreAt(queue.Window(), dist, level);
    assert queue.Window() != [] ==> front[queue.Window()[0]];
  }

  // One bottom-up phase: queue to bitmap, the rounds, bitmap back to queue.
  method BottomUpPhase(adj: Graph, ghost root: nat, from: nat, beta: nat, queue: SlidingQueue,
                       bits: array<bool>, spare: array<bool>, distances: array<int>)
    returns (distance: nat, front: array<bool>, curr: array<bool>)
    requires Closed(adj) && Symmetric(adj)
    requires root < |adj| == distances.Length == bits.Length == spare.Length == queue.shared.Length
    requires 0 < beta && bits != spare
    requires AtLevel(adj, root, distances[..], from - 1, queue, bits[..]) && queue.Window() != []
    modifies distances, bits, spare, queue, queue.shared
    ensures (front == bits && curr == spare) || (front == spare && curr == bits)
    ensures AtLevel(adj, root, distances[..], distance - 1, queue, front[..])
    ensures Advances(old(distances[..]), distances[..], queue)
  {
    ghost var dist := distances[..];
    var size := FillFront(adj, root, dist, from - 1, queue, bits);
    distance, front, curr := BottomUp(adj, root, from, beta, size, bits, spare, distances);
    StillQueued(dist, distances[..], queue.All());
    RefillWindow(adj, root, distances[..], distance - 1, queue, front);
  }

  // One turn of the main loop: bottom-up phase or top-down step, by what the two would have to check.
  method Turn(adj: Graph, ghost root: nat, alpha: nat, beta: nat, guess: int, scout: int, from: nat,
              queue: SlidingQueue, bits: array<bool>, spare: array<bool>, distances: array<int>)
    returns (left: int, next: int, distance: nat, front: array<bool>, curr: array<bool>)
    requires Closed(adj) && Symmetric(adj)
    requires root < |adj| == distances.Length == bits.Length == spare.Length == queue.shared.Length
    requires 0 < alpha && 0 < beta && bits != spare && 0 < from
    requires AtLevel(adj, root, distances[..], from - 1, queue, bits[..]) && queue.Window() != []
    modifies distances, bits, spare, queue, queue.shared
    ensures (front == bits && curr == spare) || (front == spare && curr == bits)
    ensures distance > 0 && AtLevel(adj, root, distances[..], distance - 1, queue, front[..])
    ensures Advances(old(distances[..]), distances[..], queue)
    ensures if scout > Quotient(guess, alpha) then left == guess && next == 1
            else left == guess - scout && distance == from + 1 &&
                 next + Guesses(distances[..], |adj|) == old(Guesses(distances[..], |adj|))
  {
    if scout > Quotient(guess, alpha) {
      distance, front, curr := BottomUpPhase(adj, root, from, beta, queue, bits, spare, distances);
      left, next := guess, 1;
    } else {
      left, front, curr, distance := guess - scout, bits, spare, from + 1;
      next := TopDownPhase(adj, root, from, queue, front[..], distances);
    }
  }

  // The main loop, whatever alpha, beta and the guesses make of the choice of direction.
  method Search(adj: Graph, ghost root: nat, alpha: nat, beta: nat, guess: int, rootDegree: int, queue: SlidingQueue,
                bits: array<bool>, spare: array<bool>, distances: array<int>)
    requires Closed(adj) && Symmetric(adj)
    requires root < |adj| == distances.Length == bits.Length == spare.Length == queue.shared.Length
    requires 0 < alpha && 0 < beta && bits != spare
    requires AtLevel(adj, root, distances[..], 0, queue, bits[..])
    modifies distances, bits, spare, queue, queue.shared
    ensures forall v :: 0 <= v < |adj| ==> IsHopDistance(adj, root, v, distances[v])
  {
    var edgesToCheck, scout, distance := guess, rootDegree, 1;
    var front, curr := bits, spare;
    while queue.outStart != queue.outEnd
      invariant (front == bits && curr == spare) || (front == spare && curr == bits)
      invariant distance > 0 && AtLevel(adj, root, distances[..], distance - 1, queue, front[..])
      decreases Unvisited(distances[..], |adj|), |queue.Window()|
    {
      edgesToCheck, scout, distance, front, curr :=
        Turn(adj, root, alpha, beta, edgesToCheck, scout, distance, queue, front, curr, distances);
    }
    AllFinished(adj, root, distances[..], distance - 1, queue.Window());
  }

  method Start(adj: Graph, degree: seq<nat>, root: nat, queue: SlidingQueue, ghost front: seq<bool>,
               distances: array<int>)
    returns (edges: int)
    requires |degree| == |adj| == distances.Length && root < |adj| && queue.shared.Length > 0
    requires queue.Valid() && queue.sharedIn == 0 && |front| == |adj| && forall v :: 0 <= v < |front| ==> !front[v]
    modifies distances, queue, queue.shared
    ensures AtLevel(adj, root, distances[..], 0, queue, front)
  {
    EnqueueRoot(root, queue);
    edges := InitDistance(degree, distances);
    distances[root] := 0;
    ghost var dist := distances[..];
    OnlyRoot(root, dist, queue.Window());
    OnlyRoot(root, dist, queue.All());
    StartLevel(adj, root, dist);
  }

  method EnqueueRoot(root: nat, queue: SlidingQueue)
    requires queue.Valid() && queue.sharedIn == 0 && queue.shared.Length > 0
    modifies queue, queue.shared
    ensures queue.Valid() && queue.Waiting() == []
    ensures |queue.All()| == 1 && queue.All()[0] == root && |queue.Window()| == 1 && queue.Window()[0] == root
  {
    queue.PushBack(root);
    queue.SlideWindow();
  }

  // bfs: on a symmetric graph the distances are the hop distances, negative where there is no path.
  method Bfs(adj: Graph, degree: seq<nat>, root: nat, alpha: nat, beta: nat) returns (distances: array<int>)
    requires Closed(adj) && Symmetric(adj) && |degree| == |adj| && root < |adj| && alpha > 0 && beta > 0
    ensures distances.Length == |adj| && forall v :: 0 <= v < |adj| ==> IsHopDistance(adj, root, v, distances[v])
  {
    var queue := new SlidingQueue(|adj|);
    var curr, front := new bool[|adj|], new bool[|adj|];
    Reset(curr);
    Reset(front);
    distances := new int[|adj|];
    var edgesToCheck := Start(adj, degree, root, queue, front[..], distances);
    Search(adj, root, alpha, beta, edgesToCheck, degree[root], queue, front, curr, distances);
  }
}
