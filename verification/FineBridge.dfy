// The two read semantics side by side: what the vertex of VertexEdges reports at (epoch, INTRA_MAX) is
// what the executable semantics of test/test_avb_fine.cpp asks for, on histories without deletions,
// which that test does not have.
module FineBridge {
  import opened Basics
  import opened History
  import opened VertexReplay
  import opened VertexModel
  import opened VertexSnapshot
  import Fine = FineMvcc

  // The writes of one epoch, and of all epochs up to t, as the test would publish them.
  function Tagged(ws: seq<Write>, t: nat): seq<Fine.Published> {
    seq(|ws|, i requires 0 <= i < |ws| => Fine.Published(ws[i].key, ws[i].weight, Fine.Composite(t, ws[i].intra)))
  }

  function Flat(h: Log, t: nat): seq<Fine.Published> {
    if t == 0 then [] else Flat(h, t - 1) + Tagged(WritesOf(h, t), t)
  }

  lemma LastBeforeIs(log: seq<Fine.Published>, n: nat, d: nat, tr: Fine.Composite, i: int)
    requires n <= |log| && -1 <= i < n && (i >= 0 ==> log[i].d == d && Fine.Less(log[i].at, tr))
    requires forall j :: i < j < n && log[j].d == d ==> !Fine.Less(log[j].at, tr)
    ensures Fine.LastBefore(log, n, d, tr) == i
  {
  }

  // One more epoch: visible as a whole to a reader at this epoch or later, otherwise not at all.
  lemma EpochAdds(log: seq<Fine.Published>, ws: seq<Write>, t: nat, re: nat, k: nat)
    requires WellFormedWrites(ws)
    ensures var more := log + Tagged(ws, t);
            var tr := Fine.Composite(re, INTRA_MAX);
            Fine.LastBefore(more, |more|, k, tr) ==
              if t <= re && LastIn(ws, k) >= 0 then |log| + LastIn(ws, k) else Fine.LastBefore(log, |log|, k, tr)
  {
    var more, tr := log + Tagged(ws, t), Fine.Composite(re, INTRA_MAX);
    var i := if t <= re && LastIn(ws, k) >= 0 then |log| + LastIn(ws, k) else Fine.LastBefore(log, |log|, k, tr);
    forall j | i < j < |more| && more[j].d == k
      ensures !Fine.Less(more[j].at, tr)
    {
      if j >= |log| {
        assert more[j] == Tagged(ws, t)[j - |log|];
      } else {
        assert more[j] == log[j];
      }
    }
    LastBeforeIs(more, |more|, k, tr, i);
  }

  // The last write of k that log shows a reader at re is its last one in h up to epochs t and re.
  ghost predicate Agrees(h: Log, t: nat, re: nat, k: nat, log: seq<Fine.Published>) {
    var i := Fine.LastBefore(log, |log|, k, Fine.Composite(re, INTRA_MAX));
    var l := LastEpoch(h, Min(t, re), k);
    (i >= 0 <==> l > 0) && (i >= 0 ==> log[i].w == LastWrite(h, l, k).weight)
  }

  lemma NextEpochAgrees(h: Log, t: nat, re: nat, k: nat, log: seq<Fine.Published>)
    requires t > 0 && WellFormedWrites(WritesOf(h, t)) && Agrees(h, t - 1, re, k, log)
    ensures Agrees(h, t, re, k, log + Tagged(WritesOf(h, t), t))
  {
    var ws := WritesOf(h, t);
    EpochAdds(log, ws, t, re, k);
    var i := Fine.LastBefore(log, |log|, k, Fine.Composite(re, INTRA_MAX));
    if t <= re && LastIn(ws, k) >= 0 {
      assert (log + Tagged(ws, t))[|log| + LastIn(ws, k)] == Tagged(ws, t)[LastIn(ws, k)];
    } else if i >= 0 {
      assert (log + Tagged(ws, t))[i] == log[i];
    }
  }

  lemma {:induction false} FlatReads(h: Log, t: nat, re: nat, k: nat)
    requires WellFormed(h)
    ensures Agrees(h, t, re, k, Flat(h, t))
  {
    if t > 0 {
      FlatReads(h, t - 1, re, k);
      NextEpochAgrees(h, t, re, k, Flat(h, t - 1));
    }
  }

  ghost predicate NoDeletions(h: Log) {
    forall t, i :: t in h && 0 <= i < |h[t]| ==> !h[t][i].del
  }

  // At the end of epoch re the test asks for exactly the live edges, each with its weight.
  lemma WantIsHistory(h: Log, last: nat, re: nat, k: nat)
    requires WellFormed(h) && NoDeletions(h) && re <= last && !Fine.Masked(k)
    ensures Fine.Want(Flat(h, last), k, Fine.Composite(re, INTRA_MAX)) ==
              if Live(h, re, k) then Some(WeightAt(h, re, k)) else None
  {
    FlatReads(h, last, re, k);
  }

  lemma NothingReinserted(h: Log, t: nat, k: nat)
    requires NoDeletions(h)
    ensures !ReinsertedIn(WritesOf(h, t), k)
  {
  }

  // A reader of the vertex and a reader of the test's structure are handed the same edges with the
  // same weights, whatever merges and collections the vertex has been through.
  lemma ReadersAgree(v: Vertex, h: Log, mark: nat, last: nat, re: nat, k: nat)
    requires Setup(v, h, mark, re) && NoDeletions(h) && re <= last && !Fine.Masked(k)
    requires Stamped(WritesOf(h, LastEpoch(h, re, k)), k)
    ensures var want := Fine.Want(Flat(h, last), k, Fine.Composite(re, INTRA_MAX));
            && (want.Some? <==> Reported(v, re, k) || Scanned(v.chain, re, k))
            && forall word: nat :: Weighs(v, re, k, word) ==> want == Some(word)
  {
    WantIsHistory(h, last, re, k);
    SnapshotTopology(v, h, mark, re);
    forall word: nat | Weighs(v, re, k, word)
      ensures Live(h, re, k) && word == WeightAt(h, re, k)
    {
      SnapshotWeights(v, h, mark, re, k, word);
      forall t
        ensures !Clobbered(h, re, t, k)
      {
        NothingReinserted(h, t, k);
      }
      NothingReinserted(h, LastEpoch(h, re, k), k);
      StampedVerdict(h, re, k, word);
    }
  }
}
