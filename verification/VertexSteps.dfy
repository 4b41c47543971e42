// Every step of a vertex keeps the invariant: writes, deletions, publication, merge and collection.
module VertexSteps {
  import opened Basics
  import opened History
  import opened VertexState
  import opened VertexReplay
  import opened VertexModel

  // What the protocol guarantees a writer of epoch e: the epoch is unpublished, its slot is its own
  // or drained, and no other unpublished epoch has written the same edge.
  ghost predicate MayWrite(v: Vertex, h: Log, k: nat, e: nat, intra: nat) {
    && k < DELETION_MASK && intra < INTRA_MAX && EndEpoch(v) < e < TMPVB_MASK
    && |WritesOf(h, e)| < NO_INDEX - 1
    && |v.tvbs| == 16 && (v.tvbs[e % 16].timestamp == e || v.tvbs[e % 16].entries == [])
    && (k in v.items && IsTmp(v.items[k].e.block) ==> Coarse(v.items[k].e.block) == e)
  }

  // ---- The rest of the vertex does not notice ----

  lemma WeightStable(h: Log, e: nat, w: Write, end: nat, k: nat, word: nat)
    requires WeightOk(h, end, k, word) && end < e
    ensures WeightOk(Append(h, e, w), end, k, word)
    ensures LastEpoch(Append(h, e, w), end, k) == LastEpoch(h, end, k)
    ensures Live(Append(h, e, w), end, k) <==> Live(h, end, k)
  {
    AppendElsewhere(h, e, w, end, k);
    var l := LastEpoch(h, end, k);
    if Live(h, end, k) {
      MayLeaveStable(h, Append(h, e, w), l, k, word);
    }
  }

  lemma OtherItem(h: Log, e: nat, w: Write, end: nat, k: nat, it: Item)
    requires ItemOk(h, end, k, it) && k != w.key && end < e
    ensures ItemOk(Append(h, e, w), end, k, it)
  {
    var g := Append(h, e, w);
    var t := LastEpoch(h, TOP, k);
    AppendElsewhere(h, e, w, TOP, k);
    AppendElsewhere(h, e, w, t - 1, k);
    WeightStable(h, e, w, end, k, it.p.word);
    if t == e {
      LastInSnoc(WritesOf(h, e), w, k);
    } else {
      assert WritesOf(g, t) == WritesOf(h, t);
    }
  }

  lemma OtherAbsent(h: Log, e: nat, w: Write, end: nat, mark: nat, k: nat)
    requires AbsentOk(h, end, mark, k) && k != w.key && end < e
    ensures AbsentOk(Append(h, e, w), end, mark, k)
  {
    AppendElsewhere(h, e, w, TOP, k);
  }

  // The predecessor of an earlier write is still its predecessor.
  lemma PrevStable(ws: seq<Write>, w: Write, i: nat)
    requires i < |ws|
    ensures (ws + [w])[i] == ws[i] && PrevIn(ws + [w], i) == PrevIn(ws, i)
  {
    assert (ws + [w])[..i] == ws[..i];
  }

  lemma WritesAfter(h: Log, e: nat, w: Write, t: nat)
    ensures WritesOf(Append(h, e, w), t) == if t == e then WritesOf(h, t) + [w] else WritesOf(h, t)
  {
  }

  lemma StateElsewhere(h: Log, e: nat, w: Write, t: nat, k: nat)
    requires k != w.key || t < e
    ensures LastEpoch(Append(h, e, w), t, k) == LastEpoch(h, t, k)
    ensures Live(Append(h, e, w), t, k) <==> Live(h, t, k)
  {
    AppendElsewhere(h, e, w, t, k);
  }

  lemma DisplacesSame(h: Log, g: Log, t: nat, i: nat)
    requires t > 0 && i < |WritesOf(h, t)| <= |WritesOf(g, t)| && WritesOf(g, t)[..|WritesOf(h, t)|] == WritesOf(h, t)
    requires PrevIn(WritesOf(g, t), i) == PrevIn(WritesOf(h, t), i)
    requires var k := WritesOf(h, t)[i].key;
             LastEpoch(g, t - 1, k) == LastEpoch(h, t - 1, k) && (Live(g, t - 1, k) <==> Live(h, t - 1, k))
    ensures WritesOf(g, t)[i] == WritesOf(h, t)[i] && Displaced(g, t, i) == Displaced(h, t, i)
  {
    var ws, us := WritesOf(h, t), WritesOf(g, t);
    assert forall m :: 0 <= m < |ws| ==> us[..|ws|][m] == us[m];
  }

  // So it displaces the version it did.
  lemma DisplacedStable(h: Log, e: nat, w: Write, t: nat, i: nat)
    requires t > 0 && i < |WritesOf(h, t)|
    requires WritesOf(h, t)[i].key != w.key || t <= e
    ensures i < |WritesOf(Append(h, e, w), t)| && WritesOf(Append(h, e, w), t)[i] == WritesOf(h, t)[i]
    ensures Displaced(Append(h, e, w), t, i) == Displaced(h, t, i)
  {
    WritesAfter(h, e, w, t);
    PrevStable(WritesOf(h, t), w, i);
    StateElsewhere(h, e, w, t - 1, WritesOf(h, t)[i].key);
    DisplacesSame(h, Append(h, e, w), t, i);
  }

  lemma SameEntry(h: Log, g: Log, t: nat, i: nat, n: Entry)
    requires t > 0 && i < |WritesOf(h, t)| && EntryOk(h, t, i, n)
    requires WritesOf(g, t) == WritesOf(h, t) && Displaced(g, t, i) == Displaced(h, t, i)
    ensures EntryOk(g, t, i, n)
  {
  }

  lemma EntryElsewhere(h: Log, e: nat, w: Write, t: nat, i: nat, n: Entry)
    requires 0 < t != e && i < |WritesOf(h, t)| && EntryOk(h, t, i, n)
    requires WritesOf(h, t)[i].key != w.key || t < e
    ensures WritesOf(Append(h, e, w), t) == WritesOf(h, t) && EntryOk(Append(h, e, w), t, i, n)
  {
    assert WritesOf(Append(h, e, w), t) == WritesOf(h, t);
    DisplacedStable(h, e, w, t, i);
    SameEntry(h, Append(h, e, w), t, i, n);
  }

  lemma EntryCarries(h: Log, g: Log, t: nat, w: Write, i: nat, n: Entry, m: Entry)
    requires t > 0 && i < |WritesOf(h, t)| && EntryOk(h, t, i, n) && WritesOf(g, t) == WritesOf(h, t) + [w]
    requires m == n || (m == n.(link := m.link) && WritesOf(h, t)[i].key == w.key)
    requires Displaced(g, t, i) == Displaced(h, t, i) && PrevIn(WritesOf(g, t), i) == PrevIn(WritesOf(h, t), i)
    ensures EntryOk(g, t, i, m)
  {
    LastInSnoc(WritesOf(h, t), w, WritesOf(h, t)[i].key);
  }

  lemma EntryEarlier(h: Log, e: nat, w: Write, i: nat, n: Entry, m: Entry)
    requires 0 < e && i < |WritesOf(h, e)| && EntryOk(h, e, i, n)
    requires m == n || (m == n.(link := m.link) && WritesOf(h, e)[i].key == w.key)
    ensures EntryOk(Append(h, e, w), e, i, m)
  {
    WritesAfter(h, e, w, e);
    PrevStable(WritesOf(h, e), w, i);
    DisplacedStable(h, e, w, e, i);
    EntryCarries(h, Append(h, e, w), e, w, i, n, m);
  }

  // ---- The written key ----

  // An edge with no unpublished write but in epoch e.
  lemma OnlyPending(h: Log, end: nat, e: nat, k: nat)
    requires 0 < e && end < e <= TOP
    requires var t := LastEpoch(h, TOP, k); t <= end || (t == e && LastEpoch(h, e - 1, k) <= end)
    ensures forall u :: end < u <= TOP && WrittenAt(h, u, k) ==> u == e
    ensures LastEpoch(h, e - 1, k) == LastEpoch(h, end, k)
    ensures LastEpoch(h, TOP, k) == if WrittenAt(h, e, k) then e else LastEpoch(h, end, k)
  {
    LastEpochIs(h, e - 1, k, LastEpoch(h, end, k));
    LastEpochIs(h, TOP, k, if WrittenAt(h, e, k) then e else LastEpoch(h, end, k));
  }

  // How the stored head of k relates to the write about to be made in epoch e.
  lemma HeadBefore(v: Vertex, h: Log, mark: nat, k: nat, e: nat, intra: nat)
    requires Inv(v, h, mark) && MayWrite(v, h, k, e, intra)
    ensures forall u :: EndEpoch(v) < u <= TOP && WrittenAt(h, u, k) ==> u == e
    ensures LastEpoch(h, e - 1, k) == LastEpoch(h, EndEpoch(v), k)
    ensures LastEpoch(h, TOP, k) == if WrittenAt(h, e, k) then e else LastEpoch(h, EndEpoch(v), k)
    ensures if k in v.items then ItemOk(h, EndEpoch(v), k, v.items[k])
            else AbsentOk(h, EndEpoch(v), mark, k) && !WrittenAt(h, e, k)
  {
    assert KeyOk(h, EndEpoch(v), mark, v.items, k);
    OnlyPending(h, EndEpoch(v), e, k);
  }

  // n is the entry insert_edge_block or delete_edge_block forms for write w to the edge stored as it.
  ghost predicate Forms(w: Write, it: Item, n: Entry) {
    && n.edge == EdgeWord(w) && n.weight == w.weight && n.newIntra == w.intra
    && n == EntryFor(it, n.edge, n.weight, n.newIntra, n.offset, n.mergeTimes, IsDelete(it.e.word))
    && (w.del ==> !IsDelete(it.e.word))
  }

  ghost predicate NewEntry(h: Log, e: nat, w: Write, it: Item, n: Entry) {
    && e > 0
    && (n.lastEpoch != 0 && IsTmp(it.e.block) ==>
          n.lastEpoch == e && n.link.index < |WritesOf(h, e)| && WritesOf(h, e)[n.link.index].key == w.key)
    && |WritesOf(Append(h, e, w), e)| == |WritesOf(h, e)| + 1
    && EntryOk(Append(h, e, w), e, |WritesOf(h, e)|, n)
  }

  lemma NewIsLast(ws: seq<Write>, w: Write)
    ensures PrevIn(ws + [w], |ws|) == LastIn(ws, w.key)
  {
    assert (ws + [w])[..|ws|] == ws;
  }

  // The version that the next write of k in epoch e displaces.
  function NextDisplaced(h: Log, e: nat, k: nat): nat
    requires e > 0
  {
    var j := LastIn(WritesOf(h, e), k);
    if j >= 0 then (if WritesOf(h, e)[j].del then 0 else e)
    else if Live(h, e - 1, k) then LastEpoch(h, e - 1, k) else 0
  }

  lemma NewDisplaced(h: Log, e: nat, w: Write)
    requires e > 0
    ensures WritesOf(Append(h, e, w), e) == WritesOf(h, e) + [w]
    ensures Displaced(Append(h, e, w), e, |WritesOf(h, e)|) == NextDisplaced(h, e, w.key)
  {
    NewIsLast(WritesOf(h, e), w);
    StateElsewhere(h, e, w, e - 1, w.key);
  }

  // What the entry of the next write in epoch e must hold.
  ghost predicate Fits(h: Log, e: nat, w: Write, n: Entry)
    requires e > 0
  {
    var j := LastIn(WritesOf(h, e), w.key);
    && n.edge == EdgeWord(w) && n.weight == w.weight && n.newIntra == w.intra
    && n.lastEpoch == NextDisplaced(h, e, w.key)
    && (j >= 0 && n.lastEpoch == e ==> n.oldIntra == WritesOf(h, e)[j].intra)
    && (w.del ==> n.lastEpoch != 0)
    && (n.lastEpoch == 0 ==> n.oldIntra == 0 && n.link.block == 0)
  }

  lemma FitsIsOk(h: Log, e: nat, w: Write, n: Entry)
    requires e > 0 && Fits(h, e, w, n)
    ensures |WritesOf(Append(h, e, w), e)| == |WritesOf(h, e)| + 1
    ensures EntryOk(Append(h, e, w), e, |WritesOf(h, e)|, n)
  {
    NewDisplaced(h, e, w);
    NewIsLast(WritesOf(h, e), w);
  }

  lemma NewEntryPending(h: Log, end: nat, e: nat, w: Write, it: Item, n: Entry)
    requires 0 < e && end < e < TMPVB_MASK && |WritesOf(h, e)| < NO_INDEX && Forms(w, it, n)
    requires ItemOk(h, end, w.key, it) && LastEpoch(h, TOP, w.key) == e
    ensures NewEntry(h, e, w, it, n)
  {
    FitsIsOk(h, e, w, n);
  }

  lemma NewEntryPublished(h: Log, end: nat, e: nat, w: Write, it: Item, n: Entry)
    requires 0 < e && end < e < TMPVB_MASK && Forms(w, it, n) && LastIn(WritesOf(h, e), w.key) < 0
    requires ItemOk(h, end, w.key, it)
    requires LastEpoch(h, TOP, w.key) == LastEpoch(h, end, w.key) == LastEpoch(h, e - 1, w.key)
    ensures NewEntry(h, e, w, it, n)
  {
    FitsIsOk(h, e, w, n);
  }

  lemma NewEntryFresh(h: Log, e: nat, w: Write, it: Item, n: Entry)
    requires 0 < e && Forms(w, it, n) && LastIn(WritesOf(h, e), w.key) < 0
    requires !w.del && it.e == Slot(w.key, 0, 0) && w.key < DELETION_MASK && !Live(h, e - 1, w.key)
    ensures NewEntry(h, e, w, it, n)
  {
    FitsIsOk(h, e, w, n);
  }

  // The entry a write produces names exactly the version it displaces.
  lemma NewEntryOk(v: Vertex, h: Log, mark: nat, e: nat, w: Write, it: Item, n: Entry, stale: Slot)
    requires Inv(v, h, mark) && MayWrite(v, h, w.key, e, w.intra) && Forms(w, it, n)
    requires it == Current(v, w.key, w.weight, stale) && (w.del ==> w.key in v.items)
    ensures NewEntry(h, e, w, it, n)
  {
    HeadBefore(v, h, mark, w.key, e, w.intra);
    if w.key !in v.items {
      NewEntryFresh(h, e, w, it, n);
    } else if LastIn(WritesOf(h, e), w.key) >= 0 {
      NewEntryPending(h, EndEpoch(v), e, w, it, n);
    } else {
      NewEntryPublished(h, EndEpoch(v), e, w, it, n);
    }
  }

  lemma NewItemOk(h: Log, end: nat, e: nat, w: Write, it: Item)
    requires 0 < e && end < e <= TOP && w.key < DELETION_MASK
    requires forall u :: end < u <= TOP && WrittenAt(h, u, w.key) ==> u == e
    requires LastEpoch(h, e - 1, w.key) == LastEpoch(h, end, w.key)
    requires it.e == Slot(EdgeWord(w), e + TMPVB_MASK, w.intra)
    requires !w.del ==> it.p.block == |WritesOf(h, e)|
    requires WeightOk(h, end, w.key, it.p.word)
    ensures ItemOk(Append(h, e, w), end, w.key, it)
  {
    AppendHere(h, e, w, TOP);
    AppendElsewhere(h, e, w, e - 1, w.key);
    WeightStable(h, e, w, end, w.key, it.p.word);
  }

  lemma ItemsKept(h: Log, end: nat, mark: nat, items: map<nat, Item>, e: nat, w: Write, it: Item)
    requires ItemsOk(h, end, mark, items) && end < e
    requires ItemOk(Append(h, e, w), end, w.key, it)
    ensures ItemsOk(Append(h, e, w), end, mark, items[w.key := it])
  {
    var g, after := Append(h, e, w), items[w.key := it];
    forall k: nat {:trigger KeyOk(g, end, mark, after, k)}
      ensures KeyOk(g, end, mark, after, k)
    {
      if k != w.key {
        assert KeyOk(h, end, mark, items, k);
        if k in items {
          OtherItem(h, e, w, end, k, items[k]);
        } else {
          OtherAbsent(h, e, w, end, mark, k);
        }
      }
    }
  }

  // A slot of another epoch holds no write to the edge.
  lemma OtherSlot(h: Log, end: nat, e: nat, w: Write, s: nat, b: TmpVersionBlock)
    requires TvbOk(h, end, s, b) && s != e % 16 && WellFormed(h) && e < TMPVB_MASK
    requires forall u :: end < u <= TOP && WrittenAt(h, u, w.key) ==> u == e
    ensures TvbOk(Append(h, e, w), end, s, b)
  {
    if b.entries != [] {
      var t := b.timestamp;
      var g := Append(h, e, w);
      forall i | 0 <= i < |b.entries|
        ensures EntryOk(g, t, i, b.entries[i])
      {
        assert EntryOk(h, t, i, b.entries[i]);
        assert !WrittenAt(h, t, w.key);
        EntryElsewhere(h, e, w, t, i, b.entries[i]);
      }
    }
  }

  // What AddEntry does to the slots.
  lemma AddEntryShape(h: Log, end: nat, tvbs: seq<TmpVersionBlock>, e: nat, w: Write, it: Item, n: Entry)
    requires TvbsOk(h, end, tvbs) && NewEntry(h, e, w, it, n) && end < e
    requires tvbs[e % 16].timestamp == e || tvbs[e % 16].entries == []
    ensures var r := AddEntry(tvbs, e, n, IsTmp(it.e.block));
            var es := Claimed(tvbs[e % 16], e).entries;
            && |es| == |WritesOf(h, e)|
            && (forall s :: 0 <= s < 16 && s != e % 16 ==> r[s] == tvbs[s])
            && r[e % 16].timestamp == e && |r[e % 16].entries| == |es| + 1
            && r[e % 16].entries[|es|] == n
            && forall i :: 0 <= i < |es| ==>
                 var m := r[e % 16].entries[i];
                 m == es[i] || (m == es[i].(link := m.link) && WritesOf(h, e)[i].key == w.key)
  {
    assert TvbOk(h, end, e % 16, tvbs[e % 16]);
  }

  lemma SlotKept(h: Log, end: nat, e: nat, w: Write, it: Item, n: Entry, es: seq<Entry>, fs: seq<Entry>)
    requires NewEntry(h, e, w, it, n) && end < e && |es| == |WritesOf(h, e)| && |fs| == |es| + 1 && fs[|es|] == n
    requires es != [] ==> EntriesOk(h, e, es)
    requires forall i :: 0 <= i < |es| ==>
               fs[i] == es[i] || (fs[i] == es[i].(link := fs[i].link) && WritesOf(h, e)[i].key == w.key)
    ensures EntriesOk(Append(h, e, w), e, fs)
  {
    forall i | 0 <= i < |fs|
      ensures EntryOk(Append(h, e, w), e, i, fs[i])
    {
      if i < |es| {
        assert EntryOk(h, e, i, es[i]);
        EntryEarlier(h, e, w, i, es[i], fs[i]);
      }
    }
  }

  lemma TvbsKept(h: Log, end: nat, tvbs: seq<TmpVersionBlock>, e: nat, w: Write, it: Item, n: Entry)
    requires WellFormed(h) && TvbsOk(h, end, tvbs) && NewEntry(h, e, w, it, n) && end < e < TMPVB_MASK
    requires tvbs[e % 16].timestamp == e || tvbs[e % 16].entries == []
    requires forall u :: end < u <= TOP && WrittenAt(h, u, w.key) ==> u == e
    ensures TvbsOk(Append(h, e, w), end, AddEntry(tvbs, e, n, IsTmp(it.e.block)))
  {
    var g, r := Append(h, e, w), AddEntry(tvbs, e, n, IsTmp(it.e.block));
    AddEntryShape(h, end, tvbs, e, w, it, n);
    forall s | 0 <= s < 16
      ensures TvbOk(g, end, s, r[s])
    {
      assert TvbOk(h, end, s, tvbs[s]);
      if s == e % 16 {
        SlotKept(h, end, e, w, it, n, Claimed(tvbs[s], e).entries, r[s].entries);
      } else {
        OtherSlot(h, end, e, w, s, tvbs[s]);
      }
    }
    forall t | t in g && t > end
      ensures r[t % 16].timestamp == t && r[t % 16].entries != []
    {
      if t != e {
        assert t in h;
        assert t % 16 != e % 16;
      }
    }
  }

  // A write as insert_edge_block and delete_edge_block make it: `was` is the item found or created,
  // `it` the item left, n the entry added.
  ghost predicate MakesWrite(v: Vertex, e: nat, w: Write, was: Item, it: Item, n: Entry, stale: Slot)
    requires |v.tvbs| == 16
  {
    && was == Current(v, w.key, w.weight, stale) && Forms(w, was, n) && (w.del ==> w.key in v.items)
    && it.e == Slot(EdgeWord(w), e + TMPVB_MASK, w.intra) && it.p.word == was.p.word
    && (!w.del ==> it.p.block == |Claimed(v.tvbs[e % 16], e).entries|)
  }

  lemma ProperKept(h: Log, end: nat, e: nat, w: Write, it: Item, n: Entry)
    requires NewEntry(h, e, w, it, n) && end < e && AllProper(h)
    requires forall u :: end < u && u in h && WrittenAt(h, u, w.key) ==> u == e
    ensures AllProper(Append(h, e, w))
  {
    var g := Append(h, e, w);
    forall t, i | t > 0 && 0 <= i < |WritesOf(g, t)| && WritesOf(g, t)[i].del
      ensures Displaced(g, t, i) != 0
    {
      if i < |WritesOf(h, t)| {
        assert Proper(h, t);
        assert WrittenAt(h, t, WritesOf(h, t)[i].key);
        DisplacedStable(h, e, w, t, i);
      }
    }
  }

  lemma WriteKeepsItems(v: Vertex, h: Log, mark: nat, e: nat, w: Write, was: Item, it: Item, n: Entry, stale: Slot)
    requires Inv(v, h, mark) && MayWrite(v, h, w.key, e, w.intra) && MakesWrite(v, e, w, was, it, n, stale)
    requires |Claimed(v.tvbs[e % 16], e).entries| == |WritesOf(h, e)|
    ensures ItemsOk(Append(h, e, w), EndEpoch(v), mark, v.items[w.key := it])
  {
    HeadBefore(v, h, mark, w.key, e, w.intra);
    NewItemOk(h, EndEpoch(v), e, w, it);
    ItemsKept(h, EndEpoch(v), mark, v.items, e, w, it);
  }

  lemma WriteKeepsTvbs(v: Vertex, h: Log, mark: nat, e: nat, w: Write, was: Item, it: Item, n: Entry, stale: Slot)
    requires Inv(v, h, mark) && MayWrite(v, h, w.key, e, w.intra) && MakesWrite(v, e, w, was, it, n, stale)
    ensures TvbsOk(Append(h, e, w), EndEpoch(v), AddEntry(v.tvbs, e, n, IsTmp(was.e.block)))
    ensures |Claimed(v.tvbs[e % 16], e).entries| == |WritesOf(h, e)|
    ensures NewEntry(h, e, w, was, n)
  {
    HeadBefore(v, h, mark, w.key, e, w.intra);
    NewEntryOk(v, h, mark, e, w, was, n, stale);
    AddEntryShape(h, EndEpoch(v), v.tvbs, e, w, was, n);
    TvbsKept(h, EndEpoch(v), v.tvbs, e, w, was, n);
  }

  lemma WellFormedKept(h: Log, e: nat, w: Write)
    requires WellFormed(h) && 1 <= e < TMPVB_MASK && w.key < DELETION_MASK && w.intra < INTRA_MAX
    requires forall t :: t in h ==> |h[t]| < NO_INDEX
    requires |WritesOf(h, e)| < NO_INDEX - 1
    ensures WellFormed(Append(h, e, w))
    ensures forall t :: t in Append(h, e, w) ==> |Append(h, e, w)[t]| < NO_INDEX
  {
  }

  lemma WriteKeepsHistory(v: Vertex, h: Log, mark: nat, e: nat, w: Write, was: Item, n: Entry)
    requires Inv(v, h, mark) && MayWrite(v, h, w.key, e, w.intra) && NewEntry(h, e, w, was, n)
    ensures WellFormed(Append(h, e, w)) && AllProper(Append(h, e, w))
    ensures forall t :: t in Append(h, e, w) ==> |Append(h, e, w)[t]| < NO_INDEX
    ensures ChainOk(Append(h, e, w), EndEpoch(v), v.chain)
  {
    HeadBefore(v, h, mark, w.key, e, w.intra);
    WellFormedKept(h, e, w);
    ProperKept(h, EndEpoch(v), e, w, was, n);
    ChainStable(h, e, w, EndEpoch(v), v.chain);
  }

  lemma WriteKeeps(v: Vertex, h: Log, mark: nat, e: nat, w: Write, was: Item, it: Item, n: Entry, stale: Slot)
    requires Inv(v, h, mark) && MayWrite(v, h, w.key, e, w.intra) && MakesWrite(v, e, w, was, it, n, stale)
    ensures Inv(v.(items := v.items[w.key := it], tvbs := AddEntry(v.tvbs, e, n, IsTmp(was.e.block))),
        Append(h, e, w), mark)
  {
    WriteKeepsTvbs(v, h, mark, e, w, was, it, n, stale);
    WriteKeepsItems(v, h, mark, e, w, was, it, n, stale);
    WriteKeepsHistory(v, h, mark, e, w, was, n);
  }

  // insert_edge_block: insertion, overwrite, or insertion after a deletion.
  lemma PutKeeps(v: Vertex, h: Log, mark: nat, k: nat, weight: nat, e: nat, intra: nat, offset: nat, merges: nat,
                 stale: Slot)
    requires Inv(v, h, mark) && MayWrite(v, h, k, e, intra)
    ensures Inv(Put(v, k, weight, e, intra, offset, merges, stale), Append(h, e, Write(k, false, weight, intra)), mark)
  {
    var w := Write(k, false, weight, intra);
    var it := Current(v, k, weight, stale);
    var n := EntryFor(it, k, weight, intra, offset, merges, IsDelete(it.e.word));
    WriteKeeps(v, h, mark, e, w, it, Put(v, k, weight, e, intra, offset, merges, stale).items[k], n, stale);
  }

  // delete_edge_block on an edge that is not deleted already.
  lemma DeleteKeeps(v: Vertex, h: Log, mark: nat, k: nat, weight: nat, e: nat, intra: nat, offset: nat, merges: nat)
    requires Inv(v, h, mark) && MayWrite(v, h, k, e, intra)
    requires k in v.items && !IsDelete(v.items[k].e.word)
    ensures Inv(Delete(v, k, weight, e, intra, offset, merges), Append(h, e, Write(k, true, weight, intra)), mark)
  {
    var w := Write(k, true, weight, intra);
    var it := v.items[k];
    var n := EntryFor(it, k + DELETION_MASK, weight, intra, offset, merges, false);
    WriteKeeps(v, h, mark, e, w, it, Delete(v, k, weight, e, intra, offset, merges).items[k], n, Slot(0, 0, 0));
  }

  // ---- Publication ----

  // The updater transforms epochs in order, so t is the oldest unpublished one here.
  ghost predicate MayPublish(v: Vertex, h: Log, t: nat, order: seq<nat>) {
    && |v.tvbs| == 16 && t in h && t > EndEpoch(v)
    && (forall u :: u in h && u > EndEpoch(v) ==> u >= t)
    && SortedOrder(v.tvbs[t % 16].entries, order)
  }

  lemma PublishedBefore(h: Log, end: nat, t: nat, k: nat)
    requires end < t && (forall u :: u in h && u > end ==> u >= t)
    ensures LastEpoch(h, t - 1, k) == LastEpoch(h, end, k)
    ensures !WrittenAt(h, t, k) ==> LastEpoch(h, t, k) == LastEpoch(h, end, k)
  {
    LastEpochIs(h, t - 1, k, LastEpoch(h, end, k));
  }

  lemma PublishSetting(v: Vertex, h: Log, mark: nat, t: nat, order: seq<nat>)
    requires Inv(v, h, mark) && MayPublish(v, h, t, order)
    ensures Setting(h, t, v.items, v.tvbs[t % 16].entries, order) && WeightsKept(h, t, v.items)
    ensures v.tvbs[t % 16].timestamp == t && v.tvbs[t % 16].entries != []
  {
    var es := v.tvbs[t % 16].entries;
    assert TvbOk(h, EndEpoch(v), t % 16, v.tvbs[t % 16]);
    forall i | 0 <= i < |es|
      ensures WritesOf(h, t)[i].key in v.items
    {
      var k := WritesOf(h, t)[i].key;
      assert WrittenAt(h, t, k);
      assert KeyOk(h, EndEpoch(v), mark, v.items, k);
    }
    forall k | k in v.items && Live(h, t - 1, k)
      ensures MayLeave(h, LastEpoch(h, t - 1, k), k, v.items[k].p.word)
    {
      assert KeyOk(h, EndEpoch(v), mark, v.items, k);
      PublishedBefore(h, EndEpoch(v), t, k);
    }
  }

  lemma PublishedItem(h: Log, end: nat, t: nat, items: map<nat, Item>, es: seq<Entry>, order: seq<nat>, k: nat)
    requires Setting(h, t, items, es, order) && end < t <= TOP && k in items && ItemOk(h, end, k, items[k])
    requires forall u :: u in h && u > end ==> u >= t
    ensures ItemOk(h, t, k, Replay(items, Arranged(es, order), t).items[k])
  {
    var s := Arranged(es, order);
    var it := Replay(items, s, t).items[k];
    PublishedBefore(h, end, t, k);
    ReplayWords(items, s, t, k);
    if WrittenAt(h, t, k) {
      HeadMoves(h, t, items, es, order, k);
      assert LastEpoch(h, TOP, k) == t;
      if Live(h, t, k) {
        HeadWeight(h, t, items, es, order, k);
      }
    } else {
      UntouchedItem(h, t, items, es, order, k);
    }
  }

  lemma UntouchedItem(h: Log, t: nat, items: map<nat, Item>, es: seq<Entry>, order: seq<nat>, k: nat)
    requires Setting(h, t, items, es, order) && k in items && !WrittenAt(h, t, k)
    ensures Replay(items, Arranged(es, order), t).items[k] == items[k]
  {
    var s := Arranged(es, order);
    Keys(h, t, items, es, order);
    ReplayHead(items, s, t, k);
    var p := LastFor(s, k);
  }

  lemma PublishedItems(v: Vertex, h: Log, mark: nat, t: nat, order: seq<nat>)
    requires Inv(v, h, mark) && MayPublish(v, h, t, order)
    ensures ItemsOk(h, t, mark, Replay(v.items, Arranged(v.tvbs[t % 16].entries, order), t).items)
  {
    var es := v.tvbs[t % 16].entries;
    PublishSetting(v, h, mark, t, order);
    var after := Replay(v.items, Arranged(es, order), t).items;
    forall k: nat {:trigger KeyOk(h, t, mark, after, k)}
      ensures KeyOk(h, t, mark, after, k)
    {
      assert KeyOk(h, EndEpoch(v), mark, v.items, k);
      assert k in v.items <==> k in after;
      if k in v.items {
        PublishedItem(h, EndEpoch(v), t, v.items, es, order, k);
      }
    }
  }

  lemma PublishedTvbs(h: Log, end: nat, t: nat, tvbs: seq<TmpVersionBlock>)
    requires TvbsOk(h, end, tvbs) && t in h && t > end
    requires forall u :: u in h && u > end ==> u >= t
    ensures TvbsOk(h, t, tvbs[t % 16 := tvbs[t % 16].(entries := [])])
  {
    var r := tvbs[t % 16 := tvbs[t % 16].(entries := [])];
    forall s | 0 <= s < 16
      ensures TvbOk(h, t, s, r[s])
    {
      assert TvbOk(h, end, s, tvbs[s]);
    }
  }

  lemma PublishedChain(h: Log, end: nat, t: nat, chain: seq<VersionBlock>, net: int, recs: seq<Item>)
    requires ChainOk(h, end, chain) && t in h && t > end && BlockOk(h, t, recs) && net == Net(WritesOf(h, t))
    requires forall u :: u in h && u > end ==> u >= t
    ensures ChainOk(h, t, chain + [VersionBlock(t, end, |chain| - 1, net, recs)])
  {
    var b := VersionBlock(t, end, |chain| - 1, net, recs);
    var r := chain + [b];
    forall i | 0 <= i < |r|
      ensures LinkOk(h, r, i)
    {
      if i < |chain| {
        assert LinkOk(h, chain, i);
      }
    }
    forall u | u in h && u <= t
      ensures HasBlock(r, u)
    {
      if u == t {
        assert r[|chain|].timestamp == t;
      } else {
        assert HasBlock(chain, u);
        var i :| 0 <= i < |chain| && chain[i].timestamp == u;
        assert r[i].timestamp == u;
      }
    }
  }

  lemma PublishBlock(v: Vertex, h: Log, mark: nat, t: nat, order: seq<nat>)
    requires Inv(v, h, mark) && MayPublish(v, h, t, order)
    ensures var r := Replay(v.items, Arranged(v.tvbs[t % 16].entries, order), t);
            BlockOk(h, t, r.recs) && r.net == Net(WritesOf(h, t)) && v.tvbs[t % 16].entries != []
  {
    PublishSetting(v, h, mark, t, order);
    BlockIsOk(h, t, v.items, v.tvbs[t % 16].entries, order);
    BlockNet(h, t, v.items, v.tvbs[t % 16].entries, order);
  }

  // Transform of the oldest unpublished epoch, under any order the sort may leave.
  lemma TransformKeeps(v: Vertex, h: Log, mark: nat, t: nat, order: seq<nat>)
    requires Inv(v, h, mark) && MayPublish(v, h, t, order)
    ensures Inv(Transform(v, t, order), h, mark) && EndEpoch(Transform(v, t, order)) == t
  {
    var es := v.tvbs[t % 16].entries;
    var r := Replay(v.items, Arranged(es, order), t);
    PublishBlock(v, h, mark, t, order);
    PublishedItems(v, h, mark, t, order);
    PublishedTvbs(h, EndEpoch(v), t, v.tvbs);
    PublishedChain(h, EndEpoch(v), t, v.chain, r.net, r.recs);
    var b := VersionBlock(t, EndEpoch(v), |v.chain| - 1, r.net, r.recs);
    assert (v.chain + [b])[..|v.chain|] == v.chain;
  }

  // ---- Merge and collection ----

  // The merge may drop any edges no reader at or above the watermark can see.
  lemma DropKeeps(v: Vertex, h: Log, mark: nat, oldest: nat, gone: set<nat>)
    requires Inv(v, h, mark) && oldest <= mark
    requires forall k :: k in gone ==> k in v.items && Droppable(v.items[k], oldest)
    ensures Inv(Drop(v, gone), h, mark)
  {
    var after := Drop(v, gone).items;
    forall k {:trigger k in after}
      ensures if k in after then ItemOk(h, EndEpoch(v), k, after[k]) else AbsentOk(h, EndEpoch(v), mark, k)
    {
      assert KeyOk(h, EndEpoch(v), mark, v.items, k);
    }
  }

  // An edge with a pending write is never dropped.
  lemma PendingIsKept(v: Vertex, h: Log, mark: nat, oldest: nat, k: nat)
    requires Inv(v, h, mark) && oldest <= mark && LastEpoch(h, TOP, k) > EndEpoch(v)
    ensures k in v.items && !Droppable(v.items[k], oldest)
  {
    assert KeyOk(h, EndEpoch(v), mark, v.items, k);
  }

  lemma MarkMayRise(v: Vertex, h: Log, mark: nat, higher: nat)
    requires Inv(v, h, mark) && mark <= higher < TMPVB_MASK
    ensures Inv(v, h, higher)
  {
    forall k: nat {:trigger KeyOk(h, EndEpoch(v), higher, v.items, k)}
      ensures KeyOk(h, EndEpoch(v), higher, v.items, k)
    {
      assert KeyOk(h, EndEpoch(v), mark, v.items, k);
    }
  }
}
