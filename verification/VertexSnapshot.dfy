// What a scan at (re, INTRA_MAX) reports (iterate_edges and GraphAlgorithms::for_each_edge in
// data-structure/EdgeBlock/VertexEdges.h), measured against the history of writes.
module VertexSnapshot {
  import opened Basics
  import opened History
  import opened VertexState
  import opened VertexReplay
  import opened VertexModel

  // A stored head the scan reports: not deleted, and (epoch, stamp) before (re, INTRA_MAX).
  predicate HeadVisible(it: Item, re: nat) {
    !IsDelete(it.e.word) &&
    (Coarse(it.e.block) < re || (Coarse(it.e.block) == re && it.e.index < INTRA_MAX))
  }

  // The scan of one block stops at the first record that is too new.
  function StopAt(recs: seq<Item>, from: nat, re: nat): (n: nat)
    requires from <= |recs|
    ensures from <= n <= |recs|
    ensures forall m :: from <= m < n ==> Coarse(recs[m].e.block) <= re
    ensures n < |recs| ==> Coarse(recs[n].e.block) > re
    decreases |recs| - from
  {
    if from < |recs| && Coarse(recs[from].e.block) <= re then StopAt(recs, from + 1, re) else from
  }

  function VisiblePrefix(recs: seq<Item>, re: nat): seq<Item> {
    recs[..StopAt(recs, 0, re)]
  }

  function ScanBlock(b: VersionBlock, re: nat): seq<Item> {
    if b.timestamp > re then VisiblePrefix(b.recs, re) else []
  }

  // The first n blocks of the chain, newest first, every one younger than re, without any pruning.
  function ScanUpTo(chain: seq<VersionBlock>, n: nat, re: nat): seq<Item>
    requires n <= |chain|
  {
    if n == 0 then [] else ScanBlock(chain[n - 1], re) + ScanUpTo(chain, n - 1, re)
  }

  function Scan(chain: seq<VersionBlock>, re: nat): seq<Item> {
    ScanUpTo(chain, |chain|, re)
  }

  // No unpublished entries: active_tvb_mask_ == 0.
  predicate Quiet(v: Vertex) {
    forall s :: 0 <= s < |v.tvbs| ==> v.tvbs[s].entries == []
  }

  // ---- Epochs and keys ----

  // Epoch t is the first after re to write k, so it displaces what a reader at re must see.
  predicate Displaces(h: Log, re: nat, t: nat, k: nat) {
    t > re && WrittenAt(h, t, k) && LastEpoch(h, t - 1, k) <= re
  }

  lemma DisplacesOnce(h: Log, re: nat, t: nat, u: nat, k: nat)
    requires Displaces(h, re, t, k) && Displaces(h, re, u, k)
    ensures t == u
  {
  }

  lemma SameVersion(h: Log, re: nat, t: nat, k: nat)
    requires Displaces(h, re, t, k)
    ensures LastEpoch(h, re, k) == LastEpoch(h, t - 1, k)
    ensures Live(h, re, k) <==> Live(h, t - 1, k)
  {
    LastEpochIs(h, re, k, LastEpoch(h, t - 1, k));
  }

  lemma NextWrittenEpoch(h: Log, re: nat, k: nat) returns (t: nat)
    requires LastEpoch(h, TOP, k) > re
    ensures re < t <= TOP && Displaces(h, re, t, k)
  {
    t := LastEpoch(h, TOP, k);
    while LastEpoch(h, t - 1, k) > re
      invariant re < t <= TOP && WrittenAt(h, t, k)
    {
      t := LastEpoch(h, t - 1, k);
    }
  }

  // ---- The block scan ----

  lemma PrefixMembers(recs: seq<Item>, re: nat)
    ensures var p := VisiblePrefix(recs, re);
            && |p| <= |recs| && p == recs[..|p|]
            && (forall m :: 0 <= m < |p| ==> Coarse(recs[m].e.block) <= re)
            && (|p| < |recs| ==> Coarse(recs[|p|].e.block) > re)
  {
  }

  // A reported record is one block's account of the version displaced after re.
  ghost predicate Reports(h: Log, chain: seq<VersionBlock>, re: nat, rec: Item, i: nat) {
    && i < |chain| && Displaces(h, re, chain[i].timestamp, rec.e.word)
    && RecordOk(h, chain[i].timestamp, rec) && rec.e.block <= re && Live(h, re, rec.e.word)
  }

  lemma PrefixReports(h: Log, chain: seq<VersionBlock>, re: nat, i: nat, m: nat)
    requires i < |chain| && LinkOk(h, chain, i) && WellFormed(h) && chain[i].timestamp > re
    requires m < |VisiblePrefix(chain[i].recs, re)|
    ensures Reports(h, chain, re, ScanBlock(chain[i], re)[m], i)
  {
    PrefixMembers(chain[i].recs, re);
    var rec := chain[i].recs[m];
    assert RecordOk(h, chain[i].timestamp, rec);
    SameVersion(h, re, chain[i].timestamp, rec.e.word);
  }

  // Where block i's records start in the scan of the first n blocks.
  function Start(chain: seq<VersionBlock>, n: nat, i: nat, re: nat): nat
    requires i < n <= |chain|
  {
    if i == n - 1 then 0 else |ScanBlock(chain[n - 1], re)| + Start(chain, n - 1, i, re)
  }

  lemma {:induction false} ScanLocates(chain: seq<VersionBlock>, n: nat, re: nat, m: nat) returns (i: nat, q: nat)
    requires n <= |chain| && m < |ScanUpTo(chain, n, re)|
    ensures i < n && q < |ScanBlock(chain[i], re)|
    ensures ScanUpTo(chain, n, re)[m] == ScanBlock(chain[i], re)[q] && m == Start(chain, n, i, re) + q
    decreases n
  {
    var p := ScanBlock(chain[n - 1], re);
    if m < |p| {
      i, q := n - 1, m;
    } else {
      i, q := ScanLocates(chain, n - 1, re, m - |p|);
    }
  }

  lemma ScanReports(h: Log, chain: seq<VersionBlock>, re: nat, m: nat) returns (i: nat, q: nat)
    requires WellFormed(h) && forall j {:trigger LinkOk(h, chain, j)} :: 0 <= j < |chain| ==> LinkOk(h, chain, j)
    requires m < |Scan(chain, re)|
    ensures Reports(h, chain, re, Scan(chain, re)[m], i) && q < |ScanBlock(chain[i], re)|
    ensures Scan(chain, re)[m] == ScanBlock(chain[i], re)[q] && m == Start(chain, |chain|, i, re) + q
  {
    i, q := ScanLocates(chain, |chain|, re, m);
    assert LinkOk(h, chain, i);
    PrefixReports(h, chain, re, i, q);
  }

  lemma ReportedOnce(h: Log, chain: seq<VersionBlock>, re: nat, a: Item, i: nat, b: Item, j: nat)
    requires forall n {:trigger LinkOk(h, chain, n)} :: 0 <= n < |chain| ==> LinkOk(h, chain, n)
    requires Reports(h, chain, re, a, i) && Reports(h, chain, re, b, j) && a.e.word == b.e.word
    ensures i == j
  {
    DisplacesOnce(h, re, chain[i].timestamp, chain[j].timestamp, a.e.word);
    Ascending(h, chain);
  }

  lemma BlockDistinct(h: Log, chain: seq<VersionBlock>, i: nat, re: nat, a: nat, b: nat)
    requires i < |chain| && LinkOk(h, chain, i) && chain[i].timestamp < TMPVB_MASK
    requires a < b < |ScanBlock(chain[i], re)|
    ensures ScanBlock(chain[i], re)[a].e.word != ScanBlock(chain[i], re)[b].e.word
  {
    var recs := chain[i].recs;
    PrefixMembers(recs, re);
    assert RecordOk(h, chain[i].timestamp, recs[a]) && RecordOk(h, chain[i].timestamp, recs[b]);
  }

  lemma ScanDistinct(h: Log, chain: seq<VersionBlock>, re: nat, a: nat, b: nat)
    requires WellFormed(h) && forall j {:trigger LinkOk(h, chain, j)} :: 0 <= j < |chain| ==> LinkOk(h, chain, j)
    requires a < b < |Scan(chain, re)|
    ensures Scan(chain, re)[a].e.word != Scan(chain, re)[b].e.word
  {
    var i, p := ScanReports(h, chain, re, a);
    var j, q := ScanReports(h, chain, re, b);
    if Scan(chain, re)[a].e.word == Scan(chain, re)[b].e.word {
      ReportedOnce(h, chain, re, Scan(chain, re)[a], i, Scan(chain, re)[b], j);
      assert LinkOk(h, chain, i);
      BlockDistinct(h, chain, i, re, p, q);
    }
  }

  ghost predicate Scanned(chain: seq<VersionBlock>, re: nat, k: nat) {
    exists m :: 0 <= m < |Scan(chain, re)| && Scan(chain, re)[m].e.word == k
  }

  lemma AfterPrefix(p: seq<Item>, rest: seq<Item>, i: nat)
    requires i < |rest|
    ensures |p| + i < |p + rest| && (p + rest)[|p| + i] == rest[i]
  {
  }

  lemma ScanUnfolds(chain: seq<VersionBlock>, n: nat, re: nat)
    requires 0 < n <= |chain|
    ensures ScanUpTo(chain, n, re) == ScanBlock(chain[n - 1], re) + ScanUpTo(chain, n - 1, re)
  {
  }

  lemma {:induction false} ScanFinds(chain: seq<VersionBlock>, n: nat, re: nat, i: nat, q: nat) returns (m: nat)
    requires i < n <= |chain| && q < |ScanBlock(chain[i], re)|
    ensures m < |ScanUpTo(chain, n, re)| && ScanUpTo(chain, n, re)[m] == ScanBlock(chain[i], re)[q]
    decreases n
  {
    ScanUnfolds(chain, n, re);
    if i == n - 1 {
      m := q;
    } else {
      var below := ScanFinds(chain, n - 1, re, i, q);
      m := |ScanBlock(chain[n - 1], re)| + below;
      AfterPrefix(ScanBlock(chain[n - 1], re), ScanUpTo(chain, n - 1, re), below);
    }
  }

  lemma SortedPrefix(recs: seq<Item>, re: nat, k: nat, l: nat)
    requires Sorted(recs) && Recorded(recs, k, l) && l <= re
    requires forall m :: 0 <= m < |recs| ==> recs[m].e.block < TMPVB_MASK
    ensures exists m :: 0 <= m < |VisiblePrefix(recs, re)| && VisiblePrefix(recs, re)[m].e.word == k
  {
    PrefixMembers(recs, re);
    var p := VisiblePrefix(recs, re);
    var m :| 0 <= m < |recs| && recs[m].e.word == k && recs[m].e.block == l;
    assert m < |p|;
    assert p[m].e.word == k;
  }

  // ---- The snapshot ----

  ghost predicate Setup(v: Vertex, h: Log, mark: nat, re: nat) {
    Inv(v, h, mark) && Quiet(v) && mark <= re < TMPVB_MASK
  }

  lemma QuietIsPublished(v: Vertex, h: Log, mark: nat, k: nat)
    requires Inv(v, h, mark) && Quiet(v)
    ensures LastEpoch(h, TOP, k) <= EndEpoch(v)
  {
    var t := LastEpoch(h, TOP, k);
    assert t > 0 ==> t in h;
  }

  predicate Reported(v: Vertex, re: nat, k: nat) {
    k in v.items && HeadVisible(v.items[k], re)
  }

  lemma HeadMeans(v: Vertex, h: Log, mark: nat, re: nat, k: nat)
    requires Setup(v, h, mark, re)
    ensures Reported(v, re, k) <==> Live(h, re, k) && LastEpoch(h, TOP, k) <= re
  {
    QuietIsPublished(v, h, mark, k);
    assert KeyOk(h, EndEpoch(v), mark, v.items, k);
    var t := LastEpoch(h, TOP, k);
    if t <= re {
      LastEpochIs(h, re, k, t);
    }
  }

  lemma DisplacedInBlock(h: Log, chain: seq<VersionBlock>, i: nat, re: nat, k: nat)
    requires i < |chain| && LinkOk(h, chain, i) && chain[i].timestamp < TMPVB_MASK
    requires Displaces(h, re, chain[i].timestamp, k) && Live(h, re, k)
    ensures exists q :: 0 <= q < |VisiblePrefix(chain[i].recs, re)| && VisiblePrefix(chain[i].recs, re)[q].e.word == k
  {
    var recs := chain[i].recs;
    SameVersion(h, re, chain[i].timestamp, k);
    forall m | 0 <= m < |recs|
      ensures recs[m].e.block < TMPVB_MASK
    {
      assert RecordOk(h, chain[i].timestamp, recs[m]);
    }
    SortedPrefix(recs, re, k, LastEpoch(h, re, k));
  }

  lemma BlockOf(h: Log, end: nat, chain: seq<VersionBlock>, t: nat) returns (i: nat)
    requires ChainOk(h, end, chain) && t in h && t <= end
    ensures i < |chain| && chain[i].timestamp == t && LinkOk(h, chain, i)
  {
    assert HasBlock(chain, t);
    i :| 0 <= i < |chain| && chain[i].timestamp == t;
  }

  lemma FoundIsScanned(chain: seq<VersionBlock>, re: nat, i: nat, k: nat)
    requires i < |chain| && chain[i].timestamp > re
    requires exists q :: 0 <= q < |VisiblePrefix(chain[i].recs, re)| && VisiblePrefix(chain[i].recs, re)[q].e.word == k
    ensures Scanned(chain, re, k)
  {
    var q :| 0 <= q < |VisiblePrefix(chain[i].recs, re)| && VisiblePrefix(chain[i].recs, re)[q].e.word == k;
    var m := ScanFinds(chain, |chain|, re, i, q);
    assert Scan(chain, re)[m].e.word == k;
  }

  lemma DisplacedIsScanned(h: Log, end: nat, chain: seq<VersionBlock>, re: nat, k: nat, t: nat)
    requires ChainOk(h, end, chain) && t in h && t <= end && t < TMPVB_MASK
    requires Live(h, re, k) && Displaces(h, re, t, k)
    ensures Scanned(chain, re, k)
  {
    var i := BlockOf(h, end, chain, t);
    DisplacedInBlock(h, chain, i, re, k);
    FoundIsScanned(chain, re, i, k);
  }

  lemma ScannedIsDisplaced(v: Vertex, h: Log, mark: nat, re: nat, m: nat) returns (i: nat)
    requires Setup(v, h, mark, re) && m < |Scan(v.chain, re)|
    ensures Reports(h, v.chain, re, Scan(v.chain, re)[m], i)
    ensures LastEpoch(h, TOP, Scan(v.chain, re)[m].e.word) > re
  {
    var q;
    i, q := ScanReports(h, v.chain, re, m);
    var t, k := v.chain[i].timestamp, Scan(v.chain, re)[m].e.word;
    assert LinkOk(h, v.chain, i);
    assert LastEpoch(h, TOP, k) >= t;
  }

  // Topology: the heads and the block records together are exactly the edges alive at the end of
  // epoch re, each reported once.
  lemma SnapshotTopology(v: Vertex, h: Log, mark: nat, re: nat)
    requires Setup(v, h, mark, re)
    ensures forall k :: Live(h, re, k) <==> Reported(v, re, k) || Scanned(v.chain, re, k)
    ensures forall k :: Reported(v, re, k) ==> !Scanned(v.chain, re, k)
    ensures forall a, b :: 0 <= a < b < |Scan(v.chain, re)| ==>
              Scan(v.chain, re)[a].e.word != Scan(v.chain, re)[b].e.word
  {
    var s := Scan(v.chain, re);
    forall k
      ensures Live(h, re, k) <==> Reported(v, re, k) || Scanned(v.chain, re, k)
      ensures Reported(v, re, k) ==> !Scanned(v.chain, re, k)
    {
      HeadMeans(v, h, mark, re, k);
      if Scanned(v.chain, re, k) {
        var m :| 0 <= m < |s| && s[m].e.word == k;
        var i := ScannedIsDisplaced(v, h, mark, re, m);
      } else if Live(h, re, k) && LastEpoch(h, TOP, k) > re {
        QuietIsPublished(v, h, mark, k);
        var t := NextWrittenEpoch(h, re, k);
        DisplacedIsScanned(h, EndEpoch(v), v.chain, re, k, t);
      }
    }
    forall a, b | 0 <= a < b < |s|
      ensures s[a].e.word != s[b].e.word
    {
      ScanDistinct(h, v.chain, re, a, b);
    }
  }

  // ---- Weights ----

  // word is the weight a scan at re hands out for k.
  ghost predicate Weighs(v: Vertex, re: nat, k: nat, word: nat) {
    || (Reported(v, re, k) && v.items[k].p.word == word)
    || (exists m :: 0 <= m < |Scan(v.chain, re)| &&
          Scan(v.chain, re)[m].e.word == k && Scan(v.chain, re)[m].p.word == word)
  }

  // Epoch t displaces the version a reader at re must see, and re-inserts the edge itself: the weight
  // it saves for that version is then one of its own.
  ghost predicate Clobbered(h: Log, re: nat, t: nat, k: nat) {
    Displaces(h, re, t, k) && ReinsertedIn(WritesOf(h, t), k)
  }

  // When the weight handed out for k at re is the one last written up to re, right. Only two epochs
  // matter: that of the last write, and the one that displaced it. What they leave to std::sort may
  // come out right or wrong.
  ghost predicate WeightVerdict(h: Log, re: nat, k: nat, word: nat) {
    && Live(h, re, k)
    && var l, right := LastEpoch(h, re, k), WeightAt(h, re, k);
       && ((forall t :: !Clobbered(h, re, t, k)) ==>
             && MayLeave(h, l, k, word)
             && (MustLeave(h, l, k, right) ==> word == right)
             && (!MayLeave(h, l, k, right) ==> word != right))
       && (forall t :: Clobbered(h, re, t, k) ==>
             && ReinsertWeight(WritesOf(h, t), k, word)
             && (AllReinsert(WritesOf(h, t), k, right) ==> word == right)
             && (!ReinsertWeight(WritesOf(h, t), k, right) ==> word != right))
  }

  lemma HeadWeighs(v: Vertex, h: Log, mark: nat, re: nat, k: nat)
    requires Setup(v, h, mark, re) && Reported(v, re, k)
    ensures Live(h, re, k) && MayLeave(h, LastEpoch(h, re, k), k, v.items[k].p.word)
  {
    HeadMeans(v, h, mark, re, k);
    QuietIsPublished(v, h, mark, k);
    assert KeyOk(h, EndEpoch(v), mark, v.items, k);
    LastEpochIs(h, EndEpoch(v), k, LastEpoch(h, re, k));
  }

  // word is what epoch t saved as the weight of the version it displaced.
  ghost predicate Saved(h: Log, re: nat, t: nat, k: nat, word: nat) {
    && Live(h, re, k) && Displaces(h, re, t, k)
    && if ReinsertedIn(WritesOf(h, t), k) then ReinsertWeight(WritesOf(h, t), k, word)
       else MayLeave(h, LastEpoch(h, re, k), k, word)
  }

  lemma ScanWeighs(v: Vertex, h: Log, mark: nat, re: nat, m: nat)
    requires Setup(v, h, mark, re) && m < |Scan(v.chain, re)|
    ensures var rec := Scan(v.chain, re)[m];
            var k := rec.e.word;
            Live(h, re, k) && exists t :: Saved(h, re, t, k, rec.p.word)
  {
    var i := ScannedIsDisplaced(v, h, mark, re, m);
    var rec := Scan(v.chain, re)[m];
    SameVersion(h, re, v.chain[i].timestamp, rec.e.word);
    assert Saved(h, re, v.chain[i].timestamp, rec.e.word, rec.p.word);
  }

  lemma SavedVerdict(h: Log, re: nat, t: nat, k: nat, word: nat)
    requires Saved(h, re, t, k, word)
    ensures WeightVerdict(h, re, k, word)
  {
    forall u | Clobbered(h, re, u, k)
      ensures u == t
    {
      DisplacesOnce(h, re, t, u, k);
    }
    assert ReinsertedIn(WritesOf(h, t), k) ==> Clobbered(h, re, t, k);
  }

  lemma NewestIsNotDisplaced(v: Vertex, h: Log, mark: nat, re: nat, k: nat)
    requires Setup(v, h, mark, re) && Reported(v, re, k)
    ensures forall t :: !Displaces(h, re, t, k)
  {
    HeadMeans(v, h, mark, re, k);
    forall t
      ensures !Displaces(h, re, t, k)
    {
      assert WrittenAt(h, t, k) ==> t in h;
    }
  }

  // When the newest version's weight is right.
  lemma NewestWeightIff(v: Vertex, h: Log, mark: nat, re: nat, k: nat)
    requires Setup(v, h, mark, re) && Reported(v, re, k)
    ensures WeightVerdict(h, re, k, v.items[k].p.word)
  {
    NewestIsNotDisplaced(v, h, mark, re, k);
    HeadWeighs(v, h, mark, re, k);
  }

  // When a displaced version's weight is right.
  lemma DisplacedWeightIff(v: Vertex, h: Log, mark: nat, re: nat, m: nat)
    requires Setup(v, h, mark, re) && m < |Scan(v.chain, re)|
    ensures WeightVerdict(h, re, Scan(v.chain, re)[m].e.word, Scan(v.chain, re)[m].p.word)
  {
    var rec := Scan(v.chain, re)[m];
    ScanWeighs(v, h, mark, re, m);
    var t :| Saved(h, re, t, rec.e.word, rec.p.word);
    SavedVerdict(h, re, t, rec.e.word, rec.p.word);
  }

  // Weights: whatever version of an edge a reader is handed, this says when its weight is the one last
  // written up to the reader's epoch.
  lemma SnapshotWeights(v: Vertex, h: Log, mark: nat, re: nat, k: nat, word: nat)
    requires Setup(v, h, mark, re) && Weighs(v, re, k, word)
    ensures WeightVerdict(h, re, k, word)
  {
    if Reported(v, re, k) && v.items[k].p.word == word {
      NewestWeightIff(v, h, mark, re, k);
    } else {
      var m :| 0 <= m < |Scan(v.chain, re)| && Scan(v.chain, re)[m].e.word == k && Scan(v.chain, re)[m].p.word == word;
      DisplacedWeightIff(v, h, mark, re, m);
    }
  }

  // The last write of k up to re was stored with its own weight: it did not re-insert an edge its
  // epoch had deleted, or it wrote 0, which is what such a write leaves.
  predicate KeptWeight(h: Log, re: nat, k: nat)
    requires Live(h, re, k)
  {
    var ws := WritesOf(h, LastEpoch(h, re, k));
    !Reinserts(ws, LastIn(ws, k)) || WeightAt(h, re, k) == 0
  }

  // With stamps that grow in write order nothing is left to std::sort but the re-insertions.
  lemma StampedVerdict(h: Log, re: nat, k: nat, word: nat)
    requires WeightVerdict(h, re, k, word) && AllProper(h)
    requires Stamped(WritesOf(h, LastEpoch(h, re, k)), k) && forall t :: !Clobbered(h, re, t, k)
    ensures Live(h, re, k) && (word == WeightAt(h, re, k) <==> KeptWeight(h, re, k))
  {
    var l := LastEpoch(h, re, k);
    assert Proper(h, l);
    StampsDecide(h, l, k, word);
  }
}
