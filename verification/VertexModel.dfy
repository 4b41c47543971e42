// One vertex's versioned adjacency as a value: what insert_edge_block, delete_edge_block, Transform
// and the merge do to it (data-structure/EdgeBlock/VertexEdges.cpp), and the invariant that ties it
// to the per-epoch history of writes.
module VertexModel {
  import opened Basics
  import opened History
  import opened VertexState
  import opened VertexReplay

  const TOP: nat := 0x7fff_ffff             // the largest epoch
  const NO_INDEX: nat := 0xffff_ffff        // (unsigned)-1

  // items: the primary array and the unsorted buffer together, by destination.
  datatype Vertex = Vertex(items: map<nat, Item>, tvbs: seq<TmpVersionBlock>, chain: seq<VersionBlock>, edgeNum: int)

  function EndEpoch(v: Vertex): nat {
    if v.chain == [] then 0 else v.chain[|v.chain| - 1].timestamp
  }

  // As build leaves it: no edges, 16 blank temporary version blocks.
  ghost predicate IsEmpty(v: Vertex) {
    && v.items == map[] && v.chain == [] && v.edgeNum == 0
    && |v.tvbs| == 16 && forall s :: 0 <= s < 16 ==> v.tvbs[s] == TmpVersionBlock(0, [])
  }

  // ---- Operations ----

  function BitOr(a: nat, b: nat): nat {
    if a == 0 then b else if b == 0 then a
    else 2 * BitOr(a / 2, b / 2) + if a % 2 == 1 || b % 2 == 1 then 1 else 0
  }

  // A slot stamped with another epoch is taken over; its old entries have been published.
  function Claimed(b: TmpVersionBlock, epoch: nat): TmpVersionBlock {
    if b.timestamp != epoch then TmpVersionBlock(epoch, []) else b
  }

  // ChangeNextIndex: the predecessor's entry learns of its successor.
  function ChangeNext(b: TmpVersionBlock, index: nat, epoch: nat, next: nat): TmpVersionBlock {
    if index < |b.entries| then
      var n := b.entries[index];
      b.(entries := b.entries[index := n.(link := Link(BitOr(n.link.block, epoch), next))])
    else b
  }

  function AddEntry(tvbs: seq<TmpVersionBlock>, epoch: nat, n: Entry, isTmp: bool): (r: seq<TmpVersionBlock>)
    requires |tvbs| == 16
    ensures |r| == 16
  {
    var b := Claimed(tvbs[epoch % 16], epoch);
    var added := tvbs[epoch % 16 := b.(entries := b.entries + [n])];
    if isTmp && n.lastEpoch != 0 then
      added[n.lastEpoch % 16 := ChangeNext(added[n.lastEpoch % 16], n.link.index, epoch, |b.entries|)]
    else added
  }

  // The buffer slot a new edge takes; the property half keeps its stale block and index.
  function NewItem(k: nat, weight: nat, stale: Slot): Item {
    Item(Slot(k, 0, 0), Slot(weight, stale.block, stale.index))
  }

  // The entry of a write to the edge stored as `it`; a write after a deletion starts afresh.
  function EntryFor(it: Item, edge: nat, weight: nat, intra: nat, offset: nat, merges: nat, afresh: bool): Entry {
    if afresh then Entry(edge, weight, offset, merges, 0, 0, intra, Link(0, 0))
    else
      var l := Coarse(it.e.block);
      Entry(edge, weight, offset, merges, l, it.e.index, intra,
          Link(l, if it.p.block == NO_INDEX then 0 else it.p.block))
  }

  function Current(v: Vertex, k: nat, weight: nat, stale: Slot): Item {
    if k in v.items then v.items[k] else NewItem(k, weight, stale)
  }

  function Put(v: Vertex, k: nat, weight: nat, epoch: nat, intra: nat, offset: nat, merges: nat, stale: Slot): Vertex
    requires |v.tvbs| == 16
  {
    var it := Current(v, k, weight, stale);
    var n := EntryFor(it, k, weight, intra, offset, merges, IsDelete(it.e.word));
    var index := |Claimed(v.tvbs[epoch % 16], epoch).entries|;
    v.(items := v.items[k := Item(Slot(k, epoch + TMPVB_MASK, intra), Slot(it.p.word, index, 0))],
       tvbs := AddEntry(v.tvbs, epoch, n, IsTmp(it.e.block)))
  }

  function Delete(v: Vertex, k: nat, weight: nat, epoch: nat, intra: nat, offset: nat, merges: nat): Vertex
    requires |v.tvbs| == 16 && k in v.items
  {
    var it := v.items[k];
    var n := EntryFor(it, k + DELETION_MASK, weight, intra, offset, merges, false);
    v.(items := v.items[k := Item(Slot(k + DELETION_MASK, epoch + TMPVB_MASK, intra), Slot(it.p.word, 0, 0))],
       tvbs := AddEntry(v.tvbs, epoch, n, IsTmp(it.e.block)))
  }

  function Transform(v: Vertex, t: nat, order: seq<nat>): Vertex
    requires |v.tvbs| == 16
    requires forall a :: 0 <= a < |order| ==> order[a] < |v.tvbs[t % 16].entries|
  {
    if v.tvbs[t % 16].entries == [] then v
    else
      var r := Replay(v.items, Arranged(v.tvbs[t % 16].entries, order), t);
      Vertex(r.items, v.tvbs[t % 16 := v.tvbs[t % 16].(entries := [])],
             v.chain + [VersionBlock(t, EndEpoch(v), |v.chain| - 1, r.net, r.recs)], v.edgeNum + r.net)
  }

  // The merge physically drops an edge whose deletion is older than every reader.
  predicate Droppable(it: Item, oldest: nat) {
    IsDelete(it.e.word) && it.e.block < oldest
  }

  function Drop(v: Vertex, gone: set<nat>): Vertex {
    v.(items := v.items - gone)
  }

  // ---- The invariant ----

  ghost predicate WeightOk(h: Log, end: nat, k: nat, word: nat) {
    Live(h, end, k) ==> MayLeave(h, LastEpoch(h, end, k), k, word)
  }

  // The stored head of k is its newest write: published, or pending in its one unpublished epoch.
  ghost predicate ItemOk(h: Log, end: nat, k: nat, it: Item) {
    var t := LastEpoch(h, TOP, k);
    && t > 0 && k < DELETION_MASK
    && var w := LastWrite(h, t, k);
       && it.e.word == EdgeWord(w)
       && (if t <= end then it.e.block == t && it.e.index < INTRA_MAX
           else
             && it.e.block == t + TMPVB_MASK && it.e.index == w.intra
             && LastEpoch(h, t - 1, k) <= end
             && (!w.del ==> it.p.block == LastIn(WritesOf(h, t), k)))
       && WeightOk(h, end, k, it.p.word)
  }

  // A key without an item was never written, or its deletion is older than the watermark.
  ghost predicate AbsentOk(h: Log, end: nat, mark: nat, k: nat) {
    var t := LastEpoch(h, TOP, k);
    t > 0 ==> t <= end && t < mark && LastWrite(h, t, k).del
  }

  ghost predicate KeyOk(h: Log, end: nat, mark: nat, items: map<nat, Item>, k: nat) {
    if k in items then ItemOk(h, end, k, items[k]) else AbsentOk(h, end, mark, k)
  }

  ghost predicate ItemsOk(h: Log, end: nat, mark: nat, items: map<nat, Item>) {
    forall k {:trigger KeyOk(h, end, mark, items, k)} :: KeyOk(h, end, mark, items, k)
  }

  ghost predicate TvbOk(h: Log, end: nat, s: nat, b: TmpVersionBlock) {
    b.entries != [] ==> b.timestamp in h && b.timestamp > end && b.timestamp % 16 == s
                        && EntriesOk(h, b.timestamp, b.entries)
  }

  ghost predicate TvbsOk(h: Log, end: nat, tvbs: seq<TmpVersionBlock>) {
    && |tvbs| == 16
    && (forall s :: 0 <= s < 16 ==> TvbOk(h, end, s, tvbs[s]))
    && (forall t :: t in h && t > end ==> tvbs[t % 16].timestamp == t && tvbs[t % 16].entries != [])
  }

  ghost predicate LinkOk(h: Log, chain: seq<VersionBlock>, i: nat)
    requires i < |chain|
  {
    var b := chain[i];
    && b.timestamp in h && b.timestamp > 0
    && b.lastVb == i - 1 && b.lastEpoch == (if i == 0 then 0 else chain[i - 1].timestamp) < b.timestamp
    && BlockOk(h, b.timestamp, b.recs)
    && b.edgeNum == Net(WritesOf(h, b.timestamp))
  }

  ghost predicate ChainOk(h: Log, end: nat, chain: seq<VersionBlock>) {
    && (forall i {:trigger LinkOk(h, chain, i)} :: 0 <= i < |chain| ==> LinkOk(h, chain, i))
    && end == (if chain == [] then 0 else chain[|chain| - 1].timestamp)
    && (forall t :: t in h && t <= end ==> HasBlock(chain, t))
  }

  ghost predicate HasBlock(chain: seq<VersionBlock>, t: nat) {
    exists i :: 0 <= i < |chain| && chain[i].timestamp == t
  }

  function Sum(chain: seq<VersionBlock>): int {
    if chain == [] then 0 else Sum(chain[..|chain| - 1]) + chain[|chain| - 1].edgeNum
  }

  ghost predicate AllProper(h: Log) {
    forall t {:trigger Proper(h, t)} :: t > 0 ==> Proper(h, t)
  }

  ghost predicate Inv(v: Vertex, h: Log, mark: nat) {
    && WellFormed(h) && mark < TMPVB_MASK
    && (forall t :: t in h ==> |h[t]| < NO_INDEX)
    && AllProper(h)
    && ItemsOk(h, EndEpoch(v), mark, v.items)
    && TvbsOk(h, EndEpoch(v), v.tvbs)
    && ChainOk(h, EndEpoch(v), v.chain)
    && v.edgeNum == Sum(v.chain)
  }

  lemma EmptyOk(v: Vertex)
    requires IsEmpty(v)
    ensures Inv(v, map[], 0)
  {
    forall k: nat {:trigger KeyOk(map[], 0, 0, map[], k)}
      ensures KeyOk(map[], 0, 0, map[], k)
    {
      LastEpochIs(map[], TOP, k, 0);
    }
  }

  // ---- What an appended write leaves alone ----

  lemma SameBefore(h: Log, g: Log, t: nat, k: nat)
    requires forall u :: 0 < u <= t ==> WritesOf(g, u) == WritesOf(h, u)
    ensures LastEpoch(g, t, k) == LastEpoch(h, t, k)
    ensures Live(g, t, k) <==> Live(h, t, k)
  {
    forall u | 0 < u <= t
      ensures WrittenAt(g, u, k) <==> WrittenAt(h, u, k)
    {
    }
    LastEpochIs(g, t, k, LastEpoch(h, t, k));
  }

  lemma SortsAlike(h: Log, g: Log, t: nat, i: nat, j: nat)
    requires t > 0 && i < |WritesOf(h, t)| && j < |WritesOf(h, t)| && WritesOf(g, t) == WritesOf(h, t)
    requires Displaced(g, t, i) == Displaced(h, t, i) && Displaced(g, t, j) == Displaced(h, t, j)
    ensures SortsBefore(g, t, i, j) <==> SortsBefore(h, t, i, j)
  {
  }

  lemma DisplacesAlike(h: Log, g: Log, t: nat, i: nat)
    requires t > 0 && i < |WritesOf(h, t)| && forall u :: 0 < u <= t ==> WritesOf(g, u) == WritesOf(h, u)
    ensures Displaced(g, t, i) == Displaced(h, t, i)
  {
    SameBefore(h, g, t - 1, WritesOf(h, t)[i].key);
  }

  lemma LastAlike(h: Log, g: Log, t: nat, k: nat, i: nat)
    requires t > 0 && (forall u :: 0 < u <= t ==> WritesOf(g, u) == WritesOf(h, u)) && SortsLast(h, t, k, i)
    ensures SortsLast(g, t, k, i)
  {
    DisplacesAlike(h, g, t, i);
    forall j: nat | j < |WritesOf(g, t)| && WritesOf(g, t)[j].key == k
      ensures !SortsBefore(g, t, i, j)
    {
      DisplacesAlike(h, g, t, j);
      SortsAlike(h, g, t, i, j);
    }
  }

  // Only the writes up to t decide what t leaves.
  lemma MayLeaveStable(h: Log, g: Log, t: nat, k: nat, weight: nat)
    requires t > 0 && forall u :: 0 < u <= t ==> WritesOf(g, u) == WritesOf(h, u)
    requires MayLeave(h, t, k, weight)
    ensures MayLeave(g, t, k, weight)
  {
    var i: nat :| SortsLast(h, t, k, i) && Leaves(WritesOf(h, t)[i]) == weight;
    LastAlike(h, g, t, k, i);
  }

  lemma BlockStable(h: Log, g: Log, t: nat, recs: seq<Item>)
    requires t > 0 && BlockOk(h, t, recs)
    requires forall u :: 0 < u <= t ==> WritesOf(g, u) == WritesOf(h, u)
    ensures BlockOk(g, t, recs)
  {
    forall m | 0 <= m < |recs|
      ensures RecordOk(g, t, recs[m])
    {
      assert RecordOk(h, t, recs[m]);
      RecordStable(h, g, t, recs[m]);
    }
    forall k | WrittenAt(g, t, k) && Live(g, t - 1, k)
      ensures Recorded(recs, k, LastEpoch(g, t - 1, k))
    {
      SameBefore(h, g, t - 1, k);
      assert WrittenAt(h, t, k);
    }
  }

  // What a record says of an older version, apart from its weight.
  ghost predicate Names(h: Log, t: nat, k: nat, l: nat)
    requires t > 0
  {
    WrittenAt(h, t, k) && Live(h, t - 1, k) && LastEpoch(h, t - 1, k) == l
  }

  lemma NamesStable(h: Log, g: Log, t: nat, k: nat, l: nat)
    requires t > 0 && Names(h, t, k, l) && forall u :: 0 < u <= t ==> WritesOf(g, u) == WritesOf(h, u)
    ensures Names(g, t, k, l)
  {
    SameBefore(h, g, t - 1, k);
  }

  lemma RecordStable(h: Log, g: Log, t: nat, rec: Item)
    requires t > 0 && RecordOk(h, t, rec)
    requires forall u :: 0 < u <= t ==> WritesOf(g, u) == WritesOf(h, u)
    ensures RecordOk(g, t, rec)
  {
    var k, l := rec.e.word, rec.e.block;
    if l < t {
      NamesStable(h, g, t, k, l);
      assert WritesOf(g, t) == WritesOf(h, t);
      if !ReinsertedIn(WritesOf(h, t), k) {
        MayLeaveStable(h, g, l, k, rec.p.word);
      }
    }
  }

  lemma ChainStable(h: Log, e: nat, w: Write, end: nat, chain: seq<VersionBlock>)
    requires ChainOk(h, end, chain) && end < e
    ensures ChainOk(Append(h, e, w), end, chain)
  {
    var g := Append(h, e, w);
    Ascending(h, chain);
    forall i | 0 <= i < |chain|
      ensures LinkOk(g, chain, i)
    {
      assert LinkOk(h, chain, i);
      BlockStable(h, g, chain[i].timestamp, chain[i].recs);
    }
  }

  lemma {:induction false} Ascending(h: Log, chain: seq<VersionBlock>)
    requires forall i {:trigger LinkOk(h, chain, i)} :: 0 <= i < |chain| ==> LinkOk(h, chain, i)
    ensures forall i, j :: 0 <= i < j < |chain| ==> chain[i].timestamp < chain[j].timestamp
  {
    if chain != [] {
      var n := |chain| - 1;
      var front := chain[..n];
      forall i | 0 <= i < |front|
        ensures LinkOk(h, front, i)
      {
        assert LinkOk(h, chain, i);
      }
      Ascending(h, front);
      assert LinkOk(h, chain, n);
      forall i, j | 0 <= i < j < |chain|
        ensures chain[i].timestamp < chain[j].timestamp
      {
        assert chain[i] == front[i];
        if j < n {
          assert chain[j] == front[j];
        } else if i < n - 1 {
          assert front[i].timestamp < front[n - 1].timestamp;
        }
      }
    }
  }
}
