// The records one vertex stores (data-structure/VersionBlock/VertexVersionBlock/VersionBlock.h),
// seen as values, and the replay of one epoch's entries by VertexEdges::Transform.
module VertexState {
  import opened Basics
  import opened History

  // One EdgeWithIndex. In the edge half `word` is the destination, `block` the epoch and
  // `index` the intra stamp; in the property half they are weight, predecessor index and
  // invalidation stamp.
  datatype Slot = Slot(word: nat, block: nat, index: nat)
  datatype Item = Item(e: Slot, p: Slot)

  datatype Link = Link(block: nat, index: nat)

  // VersionEntry: one not yet published write.
  datatype Entry = Entry(edge: nat, weight: nat, offset: nat, mergeTimes: nat,
                         lastEpoch: nat, oldIntra: nat, newIntra: nat, link: Link)

  datatype TmpVersionBlock = TmpVersionBlock(timestamp: nat, entries: seq<Entry>)

  // lastVb is the chain position of the older block, -1 for nullptr; recs == [] is start_ == nullptr.
  datatype VersionBlock = VersionBlock(timestamp: nat, lastEpoch: nat, lastVb: int, edgeNum: int, recs: seq<Item>)

  function Key(word: nat): nat {
    if word >= DELETION_MASK then word - DELETION_MASK else word
  }

  predicate IsDelete(word: nat) {
    word >= DELETION_MASK
  }

  predicate IsTmp(block: nat) {
    block >= TMPVB_MASK
  }

  function Coarse(block: nat): nat {
    if block >= TMPVB_MASK then block - TMPVB_MASK else block
  }

  function EdgeWord(w: Write): nat {
    if w.del then w.key + DELETION_MASK else w.key
  }

  // ---- Entries against the history ----

  // The write before write i of epoch t to the same key: its index in the epoch, or -1.
  function PrevIn(ws: seq<Write>, i: nat): (j: int)
    requires i < |ws|
    ensures -1 <= j < i
    ensures j >= 0 ==> ws[j].key == ws[i].key
    ensures forall m :: j < m < i ==> ws[m].key != ws[i].key
  {
    var j := LastIn(ws[..i], ws[i].key);
    assert forall m :: j < m < i ==> ws[..i][m] == ws[m];
    j
  }

  // The epoch of the version write i displaces: 0 if there is none or if it is a deletion.
  function Displaced(h: Log, t: nat, i: nat): (l: nat)
    requires t > 0 && i < |WritesOf(h, t)|
    ensures l <= t
  {
    var ws := WritesOf(h, t);
    var j := PrevIn(ws, i);
    if j >= 0 then (if ws[j].del then 0 else t)
    else if Live(h, t - 1, ws[i].key) then LastEpoch(h, t - 1, ws[i].key)
    else 0
  }

  ghost predicate EntryOk(h: Log, t: nat, i: nat, n: Entry)
    requires t > 0 && i < |WritesOf(h, t)|
  {
    var ws := WritesOf(h, t);
    && n.edge == EdgeWord(ws[i]) && n.weight == ws[i].weight && n.newIntra == ws[i].intra
    && n.lastEpoch == Displaced(h, t, i)
    && (PrevIn(ws, i) >= 0 && n.lastEpoch == t ==> n.oldIntra == ws[PrevIn(ws, i)].intra)
    && (ws[i].del ==> n.lastEpoch != 0)
    && (n.lastEpoch == 0 ==> n.oldIntra == 0)
    && (n.lastEpoch == 0 && LastIn(ws, ws[i].key) == i ==> n.link.block == 0)
  }

  ghost predicate EntriesOk(h: Log, t: nat, es: seq<Entry>) {
    && t > 0 && |es| == |WritesOf(h, t)|
    && forall i {:trigger EntryOk(h, t, i, es[i])} :: 0 <= i < |es| ==> EntryOk(h, t, i, es[i])
  }

  // The comparator of Transform's sort, and any order std::sort may leave.
  predicate Before(a: Entry, b: Entry) {
    if a.lastEpoch != b.lastEpoch then a.lastEpoch < b.lastEpoch else a.oldIntra < b.oldIntra
  }

  ghost predicate SortedOrder(es: seq<Entry>, order: seq<nat>) {
    && |order| == |es|
    && (forall a :: 0 <= a < |order| ==> order[a] < |es|)
    && (forall a, b :: 0 <= a < b < |order| ==> order[a] != order[b])
    && (forall i :: 0 <= i < |es| ==> i in order)
    && (forall a, b {:trigger Before(es[order[b]], es[order[a]])} :: 0 <= a < b < |order| ==>
          !Before(es[order[b]], es[order[a]]))
  }

  function Arranged(es: seq<Entry>, order: seq<nat>): (s: seq<Entry>)
    requires forall a :: 0 <= a < |order| ==> order[a] < |es|
    ensures |s| == |order| && forall a :: 0 <= a < |s| ==> s[a] == es[order[a]]
  {
    seq(|order|, a requires 0 <= a < |order| => es[order[a]])
  }

  // ---- Replay ----

  datatype Replayed = Replayed(items: map<nat, Item>, recs: seq<Item>, net: int)

  // What an entry makes of its primary item; j is the record it writes if it displaces a version.
  function NewHead(it: Item, n: Entry, t: nat, j: nat): Item {
    if n.lastEpoch == 0 then
      if Coarse(n.link.block) == 0 then
        Item(Slot(it.e.word, t, n.newIntra), Slot(n.weight, 0, 0))
      else
        it.(p := it.p.(word := n.weight))
    else if IsDelete(n.edge) then
      Item(Slot(it.e.word, t, n.newIntra), Slot(0, j, 0))
    else
      Item(Slot(it.e.word, t, n.newIntra), Slot(n.weight, j, 0))
  }

  // The displaced version an entry records.
  function Record(it: Item, n: Entry): Item {
    Item(Slot(Key(n.edge), n.lastEpoch, n.oldIntra), Slot(it.p.word, n.link.index, n.newIntra))
  }

  function Apply(r: Replayed, n: Entry, t: nat): Replayed {
    var k := Key(n.edge);
    if k !in r.items then r
    else
      var it := r.items[k];
      Replayed(r.items[k := NewHead(it, n, t, |r.recs|)],
               if n.lastEpoch == 0 then r.recs else r.recs + [Record(it, n)],
               r.net + if IsDelete(n.edge) then -1 else 1)
  }

  function Replay(items: map<nat, Item>, s: seq<Entry>, t: nat): (r: Replayed)
    ensures r.items.Keys == items.Keys
  {
    if s == [] then Replayed(items, [], 0)
    else Apply(Replay(items, s[..|s| - 1], t), s[|s| - 1], t)
  }

  // The last entry of s for key k, or -1.
  function LastFor(s: seq<Entry>, k: nat): (p: int)
    ensures -1 <= p < |s|
    ensures p >= 0 ==> Key(s[p].edge) == k
    ensures forall a :: p < a < |s| ==> Key(s[a].edge) != k
  {
    if s == [] then -1
    else if Key(s[|s| - 1].edge) == k then |s| - 1
    else
      var p := LastFor(s[..|s| - 1], k);
      assert forall a :: p < a < |s| - 1 ==> s[..|s| - 1][a] == s[a];
      p
  }

  // Entries of other keys leave an item alone, so only the last entry of a key decides its head.
  lemma {:induction false} ReplayHead(items: map<nat, Item>, s: seq<Entry>, t: nat, k: nat)
    requires k in items
    ensures var p := LastFor(s, k);
            Replay(items, s, t).items[k] ==
              if p < 0 then items[k]
              else NewHead(Replay(items, s[..p], t).items[k], s[p], t, |Replay(items, s[..p], t).recs|)
  {
    if s != [] && Key(s[|s| - 1].edge) != k {
      var front := s[..|s| - 1];
      ReplayHead(items, front, t, k);
      var p := LastFor(front, k);
      if p >= 0 {
        assert front[..p] == s[..p];
      }
    }
  }

  lemma {:induction false} ReplayWords(items: map<nat, Item>, s: seq<Entry>, t: nat, k: nat)
    requires k in items
    ensures Replay(items, s, t).items[k].e.word == items[k].e.word
  {
    if s != [] {
      ReplayWords(items, s[..|s| - 1], t, k);
    }
  }

  // Displacing entries come last in the order, so record m belongs to entry z + m.
  lemma {:induction false} ReplayRecords(items: map<nat, Item>, s: seq<Entry>, t: nat, z: nat, m: nat)
    requires z <= |s| && (forall a :: 0 <= a < z ==> s[a].lastEpoch == 0)
    requires forall a :: z <= a < |s| ==> s[a].lastEpoch != 0
    requires forall a :: 0 <= a < |s| ==> Key(s[a].edge) in items
    ensures var r := Replay(items, s, t);
            |r.recs| == |s| - z &&
            (m < |r.recs| ==> r.recs[m] == Record(Replay(items, s[..z + m], t).items[Key(s[z + m].edge)], s[z + m]))
  {
    if s != [] {
      var front := s[..|s| - 1];
      ReplayRecords(items, front, t, if z < |s| then z else z - 1, m);
      if z + m < |front| {
        assert front[..z + m] == s[..z + m];
      }
    }
  }

  function Zeros(s: seq<Entry>): (z: nat)
    ensures z <= |s| && (forall a :: 0 <= a < z ==> s[a].lastEpoch == 0)
    ensures z < |s| ==> s[z].lastEpoch != 0
  {
    if s == [] || s[0].lastEpoch != 0 then 0 else 1 + Zeros(s[1..])
  }
}
