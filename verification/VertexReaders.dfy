// Reading one vertex at (re, INTRA_MAX): the scan of primary array and buffer, the pruned walk of
// VBIterator over the chain of blocks, and the versioned degree (VertexEdges.h, VBIterator.cpp,
// VersionBlockManager.cpp). The front of the chain may be freed; no reader touches it.
module VertexReaders {
  import opened Basics
  import opened History
  import opened VertexState
  import opened VertexReplay
  import opened VertexModel
  import opened VertexSnapshot
  import opened VertexDegree
  import opened MergeSpec
  import opened EdgeStorage
  import opened VertexEdgesBlock

  // ---- The walk ----

  // A block links to the one before it and names that one's epoch.
  ghost predicate Linked(chain: seq<VersionBlock>, i: nat) {
    i < |chain| ==>
      && chain[i].lastVb == i - 1 && chain[i].timestamp > 0
      && chain[i].lastEpoch == if i == 0 then 0 else chain[i - 1].timestamp
  }

  ghost predicate Bounded(recs: seq<Item>) {
    forall m :: 0 <= m < |recs| ==> recs[m].e.block < TMPVB_MASK && recs[m].p.index < INTRA_MAX
  }

  ghost predicate Rising(chain: seq<VersionBlock>, i: nat, j: nat) {
    i < j < |chain| ==> chain[i].timestamp < chain[j].timestamp
  }

  // A block no older than the reader's epoch has not been freed.
  ghost predicate Kept(chain: seq<VersionBlock>, freed: nat, version: nat, i: nat) {
    i < |chain| && chain[i].timestamp >= version ==> i >= freed
  }

  // What the walk relies on: links, ascending epochs, freed blocks too old to matter.
  ghost predicate Walkable(chain: seq<VersionBlock>, freed: nat, version: nat) {
    && (forall i {:trigger Linked(chain, i)} :: Linked(chain, i))
    && (forall i, j {:trigger Rising(chain, i, j)} :: Rising(chain, i, j))
    && (forall i {:trigger Kept(chain, freed, version, i)} :: Kept(chain, freed, version, i))
    && (forall i {:trigger Bounded(chain[i].recs)} :: 0 <= i < |chain| ==> Bounded(chain[i].recs))
  }

  lemma WalkableOf(v: Vertex, h: Log, mark: nat, freed: nat, re: nat)
    requires Inv(v, h, mark) && mark <= re && freed <= |v.chain|
    requires forall i :: 0 <= i < freed ==> v.chain[i].timestamp < mark
    ensures Walkable(v.chain, freed, re)
  {
    Ascending(h, v.chain);
    forall i: nat {:trigger Linked(v.chain, i)}
      ensures Linked(v.chain, i)
    {
      assert i < |v.chain| ==> LinkOk(h, v.chain, i);
    }
    forall i | 0 <= i < |v.chain|
      ensures Bounded(v.chain[i].recs)
    {
      assert LinkOk(h, v.chain, i);
      RecordsBounded(h, v.chain[i].timestamp, v.chain[i].recs);
    }
    forall i: nat, j: nat {:trigger Rising(v.chain, i, j)}
      ensures Rising(v.chain, i, j)
    {
    }
    forall i: nat {:trigger Kept(v.chain, freed, re, i)}
      ensures Kept(v.chain, freed, re, i)
    {
    }
  }

  lemma RecordsBounded(h: Log, t: nat, recs: seq<Item>)
    requires 0 < t < TMPVB_MASK && BlockOk(h, t, recs)
    ensures Bounded(recs)
  {
    forall m | 0 <= m < |recs|
      ensures recs[m].e.block < TMPVB_MASK && recs[m].p.index < INTRA_MAX
    {
      assert RecordOk(h, t, recs[m]);
    }
  }

  // Blocks up to re report nothing.
  lemma {:induction false} NothingOlder(chain: seq<VersionBlock>, freed: nat, re: nat, n: nat)
    requires Walkable(chain, freed, re) && n <= |chain| && (n > 0 ==> chain[n - 1].timestamp <= re)
    ensures ScanUpTo(chain, n, re) == []
  {
    if n > 1 {
      assert Rising(chain, n - 2, n - 1);
      NothingOlder(chain, freed, re, n - 1);
    }
  }

  // A block without a record old enough reports nothing.
  lemma SkipBlock(chain: seq<VersionBlock>, vb: nat, re: nat)
    requires vb < |chain| && Linked(chain, vb) && Bounded(chain[vb].recs)
    requires chain[vb].recs == [] || chain[vb].recs[0].e.block > re
    ensures ScanUpTo(chain, vb + 1, re) == ScanUpTo(chain, vb, re)
  {
    assert ScanBlock(chain[vb], re) == [];
  }

  class VBIterator {
    const chain: seq<VersionBlock>
    const freed: nat
    const version: nat
    var vb: int
    var isEnd: bool

    // A block may be looked at only while it is allocated.
    function Block(): VersionBlock
      requires freed <= vb < |chain|
      reads this
    {
      chain[vb]
    }

    ghost predicate Valid()
      reads this
    {
      Walkable(chain, freed, version) && (!isEnd ==> freed <= vb < |chain| && chain[vb].timestamp >= version)
    }

    // What is still to be reported, the current block included.
    ghost function Rest(): seq<Item>
      requires Valid()
      reads this
    {
      if isEnd then [] else ScanUpTo(chain, vb + 1, version)
    }

    constructor (chain: seq<VersionBlock>, freed: nat, vb: int, version: nat)
      requires Walkable(chain, freed, version) && freed <= vb < |chain| && chain[vb].timestamp >= version
      ensures Valid() && this.chain == chain && this.freed == freed && this.version == version
      ensures Rest() == ScanUpTo(chain, vb + 1, version)
    {
      this.chain, this.freed, this.version, this.vb, this.isEnd := chain, freed, version, vb, false;
      new;
      isEnd := FindIndex();
    }

    // Skips blocks without a record old enough; stops where the block before is too old to matter.
    method FindIndex() returns (end: bool)
      requires Valid() && !isEnd
      modifies this`vb
      ensures end ==> ScanUpTo(chain, old(vb) + 1, version) == []
      ensures !end ==>
                Valid() && vb <= old(vb) && ScanUpTo(chain, vb + 1, version) == ScanUpTo(chain, old(vb) + 1, version)
    {
      var index := Block().recs;
      if Block().timestamp == version {
        NothingOlder(chain, freed, version, vb + 1);
        return index == [];
      }
      while index == [] || index[0].e.block > version
        invariant Valid() && vb <= old(vb) && Block().timestamp > version && index == Block().recs
        invariant ScanUpTo(chain, vb + 1, version) == ScanUpTo(chain, old(vb) + 1, version)
        decreases vb
      {
        assert Linked(chain, vb) && Bounded(chain[vb].recs);
        SkipBlock(chain, vb, version);
        if Block().lastEpoch < version {
          NothingOlder(chain, freed, version, vb);
          return true;
        }
        vb := Block().lastVb;
        if vb < 0 {
          return true;
        }
        assert Kept(chain, freed, version, vb);
        index := Block().recs;
        if Block().timestamp == version {
          NothingOlder(chain, freed, version, vb + 1);
          return index == [];
        }
      }
      return false;
    }

    method GetNext()
      requires Valid() && !isEnd
      modifies this
      ensures Valid() && Rest() == ScanUpTo(chain, old(vb), version)
      ensures !isEnd ==> vb < old(vb)
    {
      assert Linked(chain, vb);
      if Block().lastEpoch < version {
        NothingOlder(chain, freed, version, vb);
        isEnd := true;
        return;
      }
      vb := Block().lastVb;
      if vb < 0 {
        isEnd := true;
        return;
      }
      assert Kept(chain, freed, version, vb);
      isEnd := FindIndex();
    }
  }

  predicate Less(e: nat, i: nat, f: nat, j: nat) {
    e < f || (e == f && i < j)
  }

  // In the reader's own epoch a record counts only if its version survived the whole epoch.
  predicate OwnEpochVisible(rec: Item, re: nat) {
    Less(Coarse(rec.e.block), rec.e.index, re, INTRA_MAX) && !Less(re, rec.p.index, re, INTRA_MAX)
  }

  method ReportOwnEpoch(recs: seq<Item>, re: nat) returns (out: seq<Item>)
    ensures out <= recs && forall m :: 0 <= m < |out| ==> OwnEpochVisible(out[m], re)
    ensures |out| < |recs| ==> !OwnEpochVisible(recs[|out|], re)
    ensures out != [] ==> OwnEpochVisible(recs[0], re)
  {
    out := [];
    var i := 0;
    while i < |recs| && OwnEpochVisible(recs[i], re)
      invariant 0 <= i <= |recs| && out == recs[..i]
      invariant forall m :: 0 <= m < |out| ==> OwnEpochVisible(out[m], re)
    {
      out := out + [recs[i]];
      i := i + 1;
    }
  }

  // The record loop of for_each_edge on one block.
  method ReportBlock(b: VersionBlock, re: nat) returns (out: seq<Item>)
    requires b.timestamp >= re && Bounded(b.recs)
    ensures out == ScanBlock(b, re)
  {
    if b.timestamp == re {
      out := ReportOwnEpoch(b.recs, re);
    } else {
      out := [];
      var i := 0;
      PrefixMembers(b.recs, re);
      ghost var p := VisiblePrefix(b.recs, re);
      while i < |b.recs| && Coarse(b.recs[i].e.block) <= re
        invariant i <= |p| && out == b.recs[..i]
      {
        out := out + [b.recs[i]];
        i := i + 1;
      }
    }
  }

  lemma Regroup(a: seq<Item>, b: seq<Item>, c: seq<Item>)
    ensures (a + b) + c == a + (b + c)
  {
  }

  // The iterator loop of for_each_edge: exactly what an unpruned walk of the whole chain reports.
  method WalkBlocks(chain: seq<VersionBlock>, freed: nat, vb: int, re: nat) returns (out: seq<Item>)
    requires Walkable(chain, freed, re) && freed <= vb == |chain| - 1 && chain[vb].timestamp >= re
    ensures out == Scan(chain, re)
  {
    out := [];
    var it := new VBIterator(chain, freed, vb, re);
    while !it.isEnd
      invariant it.Valid() && it.chain == chain && it.freed == freed && it.version == re && fresh(it)
      invariant out + it.Rest() == Scan(chain, re)
      decreases if it.isEnd then -1 else it.vb
    {
      assert Bounded(chain[it.vb].recs);
      var some := ReportBlock(it.Block(), re);
      Regroup(out, some, ScanUpTo(chain, it.vb, re));
      out := out + some;
      it.GetNext();
    }
  }

  // getDegreeVersioned: the deltas of the blocks younger than re, taken back.
  method GetDegreeVersioned(chain: seq<VersionBlock>, freed: nat, vbEnd: int, endEpoch: nat, re: nat)
    returns (degree: int)
    requires Walkable(chain, freed, re) && vbEnd == |chain| - 1
    requires endEpoch == if chain == [] then 0 else chain[vbEnd].timestamp
    ensures degree == Rewind(chain, |chain|, re)
  {
    degree := 0;
    var ts, vb := endEpoch, vbEnd;
    while re < ts
      invariant -1 <= vb < |chain| && ts == if vb < 0 then 0 else chain[vb].timestamp
      invariant degree + Rewind(chain, vb + 1, re) == Rewind(chain, |chain|, re)
      decreases vb
    {
      assert Kept(chain, freed, re, vb) && vb >= freed && Linked(chain, vb);
      degree := degree - chain[vb].edgeNum;
      ts, vb := chain[vb].lastEpoch, chain[vb].lastVb;
    }
  }

  // ---- The scan of primary array and buffer ----

  function HeadsTo(s: seq<Item>, n: nat, re: nat): seq<Item>
    requires n <= |s|
  {
    if n == 0 then []
    else if HeadVisible(s[n - 1], re) then HeadsTo(s, n - 1, re) + [s[n - 1]]
    else HeadsTo(s, n - 1, re)
  }

  lemma {:induction false} HeadsFrom(s: seq<Item>, n: nat, re: nat, m: nat) returns (i: nat)
    requires n <= |s| && m < |HeadsTo(s, n, re)|
    ensures i < n && HeadsTo(s, n, re)[m] == s[i] && HeadVisible(s[i], re)
  {
    i := n - 1;
    if !HeadVisible(s[i], re) || m < |HeadsTo(s, n - 1, re)| {
      i := HeadsFrom(s, n - 1, re, m);
    }
  }

  lemma {:induction false} HeadsHave(s: seq<Item>, n: nat, re: nat, i: nat) returns (m: nat)
    requires i < n <= |s| && HeadVisible(s[i], re)
    ensures m < |HeadsTo(s, n, re)| && HeadsTo(s, n, re)[m] == s[i]
  {
    if i == n - 1 {
      m := |HeadsTo(s, n - 1, re)|;
    } else {
      m := HeadsHave(s, n - 1, re, i);
    }
  }

  lemma {:induction false} HeadsDiffer(s: seq<Item>, n: nat, re: nat, a: nat, b: nat)
    requires n <= |s| && a < b < |HeadsTo(s, n, re)|
    requires forall i, j :: 0 <= i < j < |s| ==> KeyOf(s[i]) != KeyOf(s[j])
    ensures HeadsTo(s, n, re)[a].e.word != HeadsTo(s, n, re)[b].e.word
  {
    if HeadVisible(s[n - 1], re) && b == |HeadsTo(s, n - 1, re)| {
      var i := HeadsFrom(s, n - 1, re, a);
    } else {
      HeadsDiffer(s, n - 1, re, a, b);
    }
  }

  method ScanSlots(a: array<Slot>, half: nat, n: nat, re: nat, ghost s: seq<Item>) returns (out: seq<Item>)
    requires |s| == n && Holds(a, half, s)
    ensures out == HeadsTo(s, n, re)
  {
    out := [];
    for i := 0 to n
      invariant out == HeadsTo(s, i, re)
    {
      if !IsDelete(a[i].word) && Less(Coarse(a[i].block), a[i].index, re, INTRA_MAX) {
        out := out + [Item(a[i], a[half + i])];
      }
    }
  }

  function Heads(buf: seq<Item>, pa: seq<Item>, re: nat): seq<Item> {
    HeadsTo(buf, |buf|, re) + HeadsTo(pa, |pa|, re)
  }

  predicate Has(out: seq<Item>, k: nat) {
    exists i :: 0 <= i < |out| && out[i].e.word == k
  }

  predicate Once(out: seq<Item>) {
    forall i, j :: 0 <= i < j < |out| ==> out[i].e.word != out[j].e.word
  }

  lemma HeadsAt(store: Layout, re: nat, m: nat)
    requires Indexed(store.pa, store.buf, store.items, store.loc) && m < |Heads(store.buf, store.pa, re)|
    ensures var it := Heads(store.buf, store.pa, re)[m];
            it.e.word in store.items && store.items[it.e.word] == it && HeadVisible(it, re)
    ensures var it := Heads(store.buf, store.pa, re)[m];
            store.loc[it.e.word].InBuf? <==> m < |HeadsTo(store.buf, |store.buf|, re)|
  {
    var front := HeadsTo(store.buf, |store.buf|, re);
    if m < |front| {
      var j := HeadsFrom(store.buf, |store.buf|, re, m);
      assert Placed(store.buf, store.loc, j, InBuf(j));
      assert Held(store.pa, store.buf, store.items, store.loc, KeyOf(store.buf[j]));
    } else {
      var i := HeadsFrom(store.pa, |store.pa|, re, m - |front|);
      assert Placed(store.pa, store.loc, i, InPa(i));
      assert Held(store.pa, store.buf, store.items, store.loc, KeyOf(store.pa[i]));
    }
  }

  lemma HeadsFind(store: Layout, re: nat, k: nat)
    requires Indexed(store.pa, store.buf, store.items, store.loc) && k in store.items && HeadVisible(store.items[k], re)
    ensures Has(Heads(store.buf, store.pa, re), k)
  {
    var w := store.loc[k];
    assert Held(store.pa, store.buf, store.items, store.loc, k);
    var front := HeadsTo(store.buf, |store.buf|, re);
    match w {
      case InBuf(j) =>
        var m := HeadsHave(store.buf, |store.buf|, re, j);
        assert Heads(store.buf, store.pa, re)[m].e.word == k;
      case InPa(i) =>
        var m := HeadsHave(store.pa, |store.pa|, re, i);
        assert Heads(store.buf, store.pa, re)[|front| + m].e.word == k;
    }
  }

  lemma BufferKeysDiffer(store: Layout)
    requires Indexed(store.pa, store.buf, store.items, store.loc)
    ensures forall i, j :: 0 <= i < j < |store.buf| ==> KeyOf(store.buf[i]) != KeyOf(store.buf[j])
  {
    forall i, j | 0 <= i < j < |store.buf|
      ensures KeyOf(store.buf[i]) != KeyOf(store.buf[j])
    {
      assert Placed(store.buf, store.loc, i, InBuf(i)) && Placed(store.buf, store.loc, j, InBuf(j));
    }
  }

  lemma HeadsOnce(store: Layout, re: nat)
    requires Indexed(store.pa, store.buf, store.items, store.loc)
    ensures Once(Heads(store.buf, store.pa, re))
  {
    var front, back := HeadsTo(store.buf, |store.buf|, re), HeadsTo(store.pa, |store.pa|, re);
    BufferKeysDiffer(store);
    forall a, b | 0 <= a < b < |Heads(store.buf, store.pa, re)|
      ensures Heads(store.buf, store.pa, re)[a].e.word != Heads(store.buf, store.pa, re)[b].e.word
    {
      HeadsAt(store, re, a);
      HeadsAt(store, re, b);
      if b < |front| {
        HeadsDiffer(store.buf, |store.buf|, re, a, b);
      } else if a >= |front| {
        HeadsDiffer(store.pa, |store.pa|, re, a - |front|, b - |front|);
      }
    }
  }

  // ---- The snapshot a reader is handed ----

  lemma HasConcat(a: seq<Item>, b: seq<Item>, k: nat)
    ensures Has(a + b, k) <==> Has(a, k) || Has(b, k)
  {
    if Has(a, k) {
      var i :| 0 <= i < |a| && a[i].e.word == k;
      assert (a + b)[i].e.word == k;
    }
    if Has(b, k) {
      var i :| 0 <= i < |b| && b[i].e.word == k;
      assert (a + b)[|a| + i].e.word == k;
    }
  }

  lemma OnceConcat(a: seq<Item>, b: seq<Item>)
    requires Once(a) && Once(b) && forall k :: Has(a, k) ==> !Has(b, k)
    ensures Once(a + b)
  {
    forall i, j | 0 <= i < j < |a + b|
      ensures (a + b)[i].e.word != (a + b)[j].e.word
    {
      if i < |a| <= j {
        assert Has(a, a[i].e.word);
        assert b[j - |a|].e.word == (a + b)[j].e.word;
      }
    }
  }

  lemma HeadsAreReported(v: Vertex, store: Layout, re: nat, k: nat)
    requires Indexed(store.pa, store.buf, store.items, store.loc) && v.items == store.items
    ensures Has(Heads(store.buf, store.pa, re), k) <==> Reported(v, re, k)
  {
    if Has(Heads(store.buf, store.pa, re), k) {
      var m :| 0 <= m < |Heads(store.buf, store.pa, re)| && Heads(store.buf, store.pa, re)[m].e.word == k;
      HeadsAt(store, re, m);
    }
    if Reported(v, re, k) {
      HeadsFind(store, re, k);
    }
  }

  lemma ReportIsSnapshot(v: Vertex, h: Log, mark: nat, re: nat, store: Layout)
    requires Setup(v, h, mark, re) && v.items == store.items
    requires Indexed(store.pa, store.buf, store.items, store.loc)
    ensures var out := Heads(store.buf, store.pa, re) + Scan(v.chain, re);
            Once(out) && forall k :: Has(out, k) <==> Live(h, re, k)
  {
    var heads, scan := Heads(store.buf, store.pa, re), Scan(v.chain, re);
    SnapshotTopology(v, h, mark, re);
    HeadsOnce(store, re);
    forall k
      ensures Has(heads + scan, k) <==> Live(h, re, k)
      ensures Has(heads, k) ==> !Has(scan, k)
    {
      HasConcat(heads, scan, k);
      HeadsAreReported(v, store, re, k);
      assert Has(scan, k) <==> Scanned(v.chain, re, k);
    }
    OnceConcat(heads, scan);
  }

  lemma ReportWeighs(v: Vertex, h: Log, mark: nat, re: nat, store: Layout, i: nat)
    requires Setup(v, h, mark, re) && v.items == store.items
    requires Indexed(store.pa, store.buf, store.items, store.loc)
    requires i < |Heads(store.buf, store.pa, re) + Scan(v.chain, re)|
    ensures var it := (Heads(store.buf, store.pa, re) + Scan(v.chain, re))[i]; Weighs(v, re, it.e.word, it.p.word)
  {
    var heads := Heads(store.buf, store.pa, re);
    if i < |heads| {
      HeadsAt(store, re, i);
    } else {
      assert Scan(v.chain, re)[i - |heads|] == (heads + Scan(v.chain, re))[i];
    }
  }

  // out lists each edge alive at the end of epoch re once, with the weight it had then exactly as
  // WeightVerdict says.
  ghost predicate IsSnapshot(h: Log, re: nat, out: seq<Item>) {
    && Once(out) && (forall k :: Has(out, k) <==> Live(h, re, k))
    && (forall i :: 0 <= i < |out| ==> WeightVerdict(h, re, out[i].e.word, out[i].p.word))
  }

  lemma ReportIsExact(v: Vertex, h: Log, mark: nat, re: nat, store: Layout)
    requires Setup(v, h, mark, re) && v.items == store.items
    requires Indexed(store.pa, store.buf, store.items, store.loc)
    ensures IsSnapshot(h, re, Heads(store.buf, store.pa, re) + Scan(v.chain, re))
  {
    var out := Heads(store.buf, store.pa, re) + Scan(v.chain, re);
    ReportIsSnapshot(v, h, mark, re, store);
    forall i | 0 <= i < |out|
      ensures WeightVerdict(h, re, out[i].e.word, out[i].p.word)
    {
      ReportWeighs(v, h, mark, re, store, i);
      SnapshotWeights(v, h, mark, re, out[i].e.word, out[i].p.word);
    }
  }

  // Reading while no temporary version block is active, from an epoch the watermark has not passed.
  ghost predicate MayRead(ve: VertexEdges, re: nat)
    reads ve, ve.store, ve.store.start, ve.store.tmpItem, ve.store.M, ve.store.M.hashtable
  {
    ve.Valid() && Quiet(ve.View()) && ve.mark <= re < TMPVB_MASK
  }

  // iterate_edges_with_property.
  method IterateEdges(ve: VertexEdges, re: nat) returns (out: seq<Item>, needIterator: bool)
    requires MayRead(ve, re)
    ensures out == Heads(ve.store.view.buf, ve.store.view.pa, re)
    ensures needIterator <==> re <= ve.endEpoch && ve.vbEnd >= 0
  {
    var some := ScanSlots(ve.store.tmpItem, 64, ve.store.tmpEv, re, ve.store.view.buf);
    var more := ScanSlots(ve.store.start, ve.store.capacity, ve.store.edgesAndVersions, re, ve.store.view.pa);
    out := some + more;
    needIterator := re <= ve.endEpoch && ve.vbEnd >= 0;
  }

  // for_each_edge and for_each_edge_with_property at (re, INTRA_MAX).
  method ForEachEdgeWithProperty(ve: VertexEdges, re: nat) returns (out: seq<Item>)
    requires MayRead(ve, re)
    ensures IsSnapshot(ve.hist, re, out)
  {
    var heads, needIterator := IterateEdges(ve, re);
    WalkableOf(ve.View(), ve.hist, ve.mark, ve.freed, re);
    ReportIsExact(ve.View(), ve.hist, ve.mark, re, ve.store.view);
    if needIterator {
      var rest := WalkBlocks(ve.chain, ve.freed, ve.vbEnd, re);
      out := heads + rest;
    } else {
      NothingOlder(ve.chain, ve.freed, re, |ve.chain|);
      assert heads == heads + Scan(ve.chain, re);
      out := heads;
    }
  }

  // get_degree(epoch): an overwrite of a live edge counts as one more edge.
  method GetDegree(ve: VertexEdges, re: nat) returns (degree: int)
    requires MayRead(ve, re)
    ensures degree == |LiveKeys(ve.hist, re)| + OverwritesUpTo(ve.hist, re)
    ensures degree == |LiveKeys(ve.hist, re)| <==> OverwritesUpTo(ve.hist, re) == 0
  {
    WalkableOf(ve.View(), ve.hist, ve.mark, ve.freed, re);
    DegreeTheorem(ve.View(), ve.hist, ve.mark, re);
    degree := GetDegreeVersioned(ve.chain, ve.freed, ve.vbEnd, ve.endEpoch, re);
    degree := ve.edgeNum + degree;
  }
}
