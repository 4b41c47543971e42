// The versioned degree (getDegreeVersioned in VersionBlockManager.cpp:108-125 and get_degree(epoch)
// in VertexEdges.cpp:623-625) against the history of writes.
module VertexDegree {
  import opened History
  import opened VertexState
  import opened VertexReplay
  import opened VertexModel
  import opened VertexSnapshot

  // Insertions minus deletions in the epochs up to t.
  function NetUpTo(h: Log, t: nat): int {
    if t == 0 then 0 else NetUpTo(h, t - 1) + Net(WritesOf(h, t))
  }

  // The edges alive after the writes ws, starting from live.
  function LiveAfter(live: set<nat>, ws: seq<Write>): set<nat> {
    if ws == [] then live
    else
      var s := LiveAfter(live, ws[..|ws| - 1]);
      var w := ws[|ws| - 1];
      if w.del then s - {w.key} else s + {w.key}
  }

  function LiveKeys(h: Log, t: nat): set<nat> {
    if t == 0 then {} else LiveAfter(LiveKeys(h, t - 1), WritesOf(h, t))
  }

  // Writes that overwrite an edge alive at that moment.
  function Overwrites(live: set<nat>, ws: seq<Write>): nat {
    if ws == [] then 0
    else
      var w := ws[|ws| - 1];
      Overwrites(live, ws[..|ws| - 1]) + if !w.del && w.key in LiveAfter(live, ws[..|ws| - 1]) then 1 else 0
  }

  function OverwritesUpTo(h: Log, t: nat): nat {
    if t == 0 then 0 else OverwritesUpTo(h, t - 1) + Overwrites(LiveKeys(h, t - 1), WritesOf(h, t))
  }

  lemma {:induction false} LiveAfterWrites(live: set<nat>, ws: seq<Write>, k: nat)
    ensures k in LiveAfter(live, ws) <==>
              if LastIn(ws, k) >= 0 then !ws[LastIn(ws, k)].del else k in live
  {
    if ws != [] {
      LiveAfterWrites(live, ws[..|ws| - 1], k);
    }
  }

  // The replayed set is the reference liveness.
  lemma {:induction false} LiveKeysAreLive(h: Log, t: nat, k: nat)
    ensures k in LiveKeys(h, t) <==> Live(h, t, k)
  {
    if t > 0 {
      LiveKeysAreLive(h, t - 1, k);
      LiveAfterWrites(LiveKeys(h, t - 1), WritesOf(h, t), k);
    }
  }

  // Each deletion hits an edge that is alive.
  ghost predicate DeletesHit(live: set<nat>, ws: seq<Write>) {
    forall i :: 0 <= i < |ws| && ws[i].del ==> ws[i].key in LiveAfter(live, ws[..i])
  }

  lemma {:induction false} CountAfter(live: set<nat>, ws: seq<Write>)
    requires DeletesHit(live, ws)
    ensures |LiveAfter(live, ws)| + Overwrites(live, ws) == |live| + Net(ws)
  {
    if ws != [] {
      var front := ws[..|ws| - 1];
      forall i | 0 <= i < |front| && front[i].del
        ensures front[i].key in LiveAfter(live, front[..i])
      {
        assert front[..i] == ws[..i];
      }
      CountAfter(live, front);
    }
  }

  lemma DeletesAreProper(h: Log, t: nat)
    requires t > 0 && Proper(h, t)
    ensures DeletesHit(LiveKeys(h, t - 1), WritesOf(h, t))
  {
    var ws := WritesOf(h, t);
    forall i | 0 <= i < |ws| && ws[i].del
      ensures ws[i].key in LiveAfter(LiveKeys(h, t - 1), ws[..i])
    {
      assert Displaced(h, t, i) != 0;
      LiveAfterWrites(LiveKeys(h, t - 1), ws[..i], ws[i].key);
      LiveKeysAreLive(h, t - 1, ws[i].key);
    }
  }

  // Conservation: what was inserted and not deleted is alive, except that an overwrite counts twice.
  lemma {:induction false} NetIsLivePlusOverwrites(h: Log, t: nat)
    requires forall u :: 0 < u <= t ==> Proper(h, u)
    ensures NetUpTo(h, t) == |LiveKeys(h, t)| + OverwritesUpTo(h, t)
  {
    if t > 0 {
      NetIsLivePlusOverwrites(h, t - 1);
      DeletesAreProper(h, t);
      CountAfter(LiveKeys(h, t - 1), WritesOf(h, t));
    }
  }

  // ---- The chain ----

  // The block deltas of the first n blocks with timestamp up to t.
  function SumUpTo(chain: seq<VersionBlock>, n: nat, t: nat): int
    requires n <= |chain|
  {
    if n == 0 then 0 else SumUpTo(chain, n - 1, t) + if chain[n - 1].timestamp <= t then chain[n - 1].edgeNum else 0
  }

  // edge_num_ minus the deltas of the younger blocks, newest first: the walk of getDegreeVersioned.
  function Rewind(chain: seq<VersionBlock>, n: nat, t: nat): int
    requires n <= |chain|
  {
    if n == 0 || chain[n - 1].timestamp <= t then 0 else -chain[n - 1].edgeNum + Rewind(chain, n - 1, t)
  }

  lemma {:induction false} SumIsSumUpTo(chain: seq<VersionBlock>, n: nat, t: nat)
    requires n <= |chain| && forall i :: 0 <= i < n ==> chain[i].timestamp <= t
    ensures SumUpTo(chain, n, t) == Sum(chain[..n])
  {
    if n > 0 {
      SumIsSumUpTo(chain, n - 1, t);
      assert chain[..n][..n - 1] == chain[..n - 1];
    }
  }

  lemma {:induction false} RewindIsExact(chain: seq<VersionBlock>, n: nat, t: nat)
    requires n <= |chain| && forall i, j :: 0 <= i < j < |chain| ==> chain[i].timestamp < chain[j].timestamp
    ensures Sum(chain[..n]) + Rewind(chain, n, t) == SumUpTo(chain, n, t)
  {
    if n > 0 {
      assert chain[..n][..n - 1] == chain[..n - 1];
      if chain[n - 1].timestamp <= t {
        SumIsSumUpTo(chain, n, t);
      } else {
        RewindIsExact(chain, n - 1, t);
      }
    }
  }

  // Blocks account for every epoch: the deltas up to t are the net writes up to t.
  lemma {:induction false} DeltasAreNet(h: Log, end: nat, chain: seq<VersionBlock>, t: nat)
    requires ChainOk(h, end, chain) && (forall u :: u in h ==> 0 < u <= end)
    ensures SumUpTo(chain, |chain|, t) == NetUpTo(h, t)
  {
    Ascending(h, chain);
    if t == 0 {
      NoneUpTo(h, chain, |chain|);
    } else {
      DeltasAreNet(h, end, chain, t - 1);
      if t in h {
        var i := BlockOf(h, end, chain, t);
        OneMore(chain, |chain|, t, i);
      } else {
        forall i | 0 <= i < |chain|
          ensures chain[i].timestamp != t
        {
          assert LinkOk(h, chain, i);
        }
        NoMore(chain, |chain|, t);
      }
    }
  }

  lemma {:induction false} NoneUpTo(h: Log, chain: seq<VersionBlock>, n: nat)
    requires n <= |chain| && forall i {:trigger LinkOk(h, chain, i)} :: 0 <= i < |chain| ==> LinkOk(h, chain, i)
    ensures SumUpTo(chain, n, 0) == 0
  {
    if n > 0 {
      NoneUpTo(h, chain, n - 1);
      assert LinkOk(h, chain, n - 1);
    }
  }

  lemma {:induction false} NoMore(chain: seq<VersionBlock>, n: nat, t: nat)
    requires 0 < t && n <= |chain| && forall i :: 0 <= i < n ==> chain[i].timestamp != t
    ensures SumUpTo(chain, n, t) == SumUpTo(chain, n, t - 1)
  {
    if n > 0 {
      NoMore(chain, n - 1, t);
    }
  }

  lemma {:induction false} OneMore(chain: seq<VersionBlock>, n: nat, t: nat, i: nat)
    requires 0 < t && i < n <= |chain| && chain[i].timestamp == t
    requires forall a, b :: 0 <= a < b < |chain| ==> chain[a].timestamp < chain[b].timestamp
    ensures SumUpTo(chain, n, t) == SumUpTo(chain, n, t - 1) + chain[i].edgeNum
  {
    if i == n - 1 {
      NoMore(chain, n - 1, t);
    } else {
      OneMore(chain, n - 1, t, i);
    }
  }

  // The degree handed out for epoch re is the number of edges alive at its end plus the number of
  // overwrites of live edges so far; so it is the snapshot's size exactly when nothing was overwritten.
  lemma DegreeTheorem(v: Vertex, h: Log, mark: nat, re: nat)
    requires Setup(v, h, mark, re)
    ensures v.edgeNum + Rewind(v.chain, |v.chain|, re) == |LiveKeys(h, re)| + OverwritesUpTo(h, re)
    ensures v.edgeNum + Rewind(v.chain, |v.chain|, re) == |LiveKeys(h, re)| <==> OverwritesUpTo(h, re) == 0
  {
    Ascending(h, v.chain);
    assert v.chain[..|v.chain|] == v.chain;
    RewindIsExact(v.chain, |v.chain|, re);
    forall u | u in h
      ensures 0 < u <= EndEpoch(v)
    {
    }
    DeltasAreNet(h, EndEpoch(v), v.chain, re);
    NetIsLivePlusOverwrites(h, re);
  }
}
