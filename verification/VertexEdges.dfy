// The per-vertex multiversion adjacency, class VertexEdges (data-structure/EdgeBlock/VertexEdges.cpp
// and VertexEdges.h) with its VersionBlockManager. Its invariant carries the history of writes, so
// every method is stated against what was written, not against how it is stored.
module VertexEdgesBlock {
  import opened Basics
  import opened History
  import opened VertexState
  import opened VertexReplay
  import opened VertexModel
  import opened VertexSteps
  import opened MergeSpec
  import opened EdgeStorage

  // The `offset` of an entry: buffer slots carry the TMPVB_MASK bit.
  function Encode(w: Where): nat {
    match w
    case InPa(i) => i
    case InBuf(j) => j + TMPVB_MASK
  }

  function Decode(offset: nat): Where {
    if offset >= TMPVB_MASK then InBuf(offset - TMPVB_MASK) else InPa(offset)
  }

  // An unpublished entry still finds its edge: directly if no merge intervened since it was added,
  // by the binary search of the primary array otherwise.
  ghost predicate EntryAt(n: Entry, loc: map<nat, Where>, merges: nat) {
    var k := Key(n.edge);
    k in loc && if n.mergeTimes == merges then loc[k] == Decode(n.offset) else n.mergeTimes < merges && loc[k].InPa?
  }

  ghost predicate Located(tvbs: seq<TmpVersionBlock>, loc: map<nat, Where>, merges: nat) {
    forall s, x {:trigger EntryAt(tvbs[s].entries[x], loc, merges)} ::
      0 <= s < |tvbs| && 0 <= x < |tvbs[s].entries| ==> EntryAt(tvbs[s].entries[x], loc, merges)
  }

  lemma LocatedAppend(tvbs: seq<TmpVersionBlock>, loc: map<nat, Where>, merges: nat, k: nat, w: Where)
    requires Located(tvbs, loc, merges) && k !in loc
    ensures Located(tvbs, loc[k := w], merges)
  {
    forall s, x | 0 <= s < |tvbs| && 0 <= x < |tvbs[s].entries|
      ensures EntryAt(tvbs[s].entries[x], loc[k := w], merges)
    {
      assert EntryAt(tvbs[s].entries[x], loc, merges);
    }
  }

  lemma LocatedClaim(tvbs: seq<TmpVersionBlock>, loc: map<nat, Where>, merges: nat, e: nat)
    requires |tvbs| == 16 && Located(tvbs, loc, merges)
    ensures Located(tvbs[e % 16 := Claimed(tvbs[e % 16], e)], loc, merges)
  {
    var r := tvbs[e % 16 := Claimed(tvbs[e % 16], e)];
    forall s, x | 0 <= s < |r| && 0 <= x < |r[s].entries|
      ensures EntryAt(r[s].entries[x], loc, merges)
    {
      assert EntryAt(tvbs[s].entries[x], loc, merges);
    }
  }

  lemma LocatedDrain(tvbs: seq<TmpVersionBlock>, loc: map<nat, Where>, merges: nat, i: nat)
    requires |tvbs| == 16 && i < 16 && Located(tvbs, loc, merges)
    ensures Located(tvbs[i := tvbs[i].(entries := [])], loc, merges)
  {
    var r := tvbs[i := tvbs[i].(entries := [])];
    forall s, x | 0 <= s < |r| && 0 <= x < |r[s].entries|
      ensures EntryAt(r[s].entries[x], loc, merges)
    {
      assert EntryAt(tvbs[s].entries[x], loc, merges);
    }
  }

  lemma LocatedChange(tvbs: seq<TmpVersionBlock>, loc: map<nat, Where>, merges: nat, i: nat, index: nat, e: nat,
                      next: nat)
    requires i < |tvbs| && Located(tvbs, loc, merges)
    ensures Located(tvbs[i := ChangeNext(tvbs[i], index, e, next)], loc, merges)
  {
    var r := tvbs[i := ChangeNext(tvbs[i], index, e, next)];
    forall s, x | 0 <= s < |r| && 0 <= x < |r[s].entries|
      ensures EntryAt(r[s].entries[x], loc, merges)
    {
      assert EntryAt(tvbs[s].entries[x], loc, merges);
    }
  }

  lemma LocatedAdd(tvbs: seq<TmpVersionBlock>, loc: map<nat, Where>, merges: nat, e: nat, n: Entry, isTmp: bool)
    requires |tvbs| == 16 && Located(tvbs, loc, merges) && EntryAt(n, loc, merges)
    ensures Located(AddEntry(tvbs, e, n, isTmp), loc, merges)
  {
    LocatedClaim(tvbs, loc, merges, e);
    var claimed := tvbs[e % 16 := Claimed(tvbs[e % 16], e)];
    var b := Claimed(tvbs[e % 16], e);
    var added := tvbs[e % 16 := b.(entries := b.entries + [n])];
    forall s, x | 0 <= s < |added| && 0 <= x < |added[s].entries|
      ensures EntryAt(added[s].entries[x], loc, merges)
    {
      if s != e % 16 || x < |b.entries| {
        assert EntryAt(claimed[s].entries[x], loc, merges);
      }
    }
    if isTmp && n.lastEpoch != 0 {
      LocatedChange(added, loc, merges, n.lastEpoch % 16, n.link.index, e, |b.entries|);
    }
  }

  // A merge moves every surviving edge to the primary array, and pending ones always survive.
  lemma LocatedMerge(v: Vertex, h: Log, mark: nat, loc: map<nat, Where>, merges: nat, oldest: nat,
                     after: map<nat, Item>, places: map<nat, Where>)
    requires Inv(v, h, mark) && oldest <= mark && Located(v.tvbs, loc, merges)
    requires AfterMerge(v.items, loc, oldest, after) && after.Keys == places.Keys
    requires forall k :: k in places ==> places[k].InPa?
    ensures Located(v.tvbs, places, merges + 1)
  {
    forall s, x | 0 <= s < |v.tvbs| && 0 <= x < |v.tvbs[s].entries|
      ensures EntryAt(v.tvbs[s].entries[x], places, merges + 1)
    {
      var n := v.tvbs[s].entries[x];
      assert EntryAt(n, loc, merges);
      EntryIsPending(v, h, mark, s, x);
      PendingIsKept(v, h, mark, oldest, Key(n.edge));
    }
  }

  lemma EntryIsPending(v: Vertex, h: Log, mark: nat, s: nat, x: nat)
    requires Inv(v, h, mark) && s < 16 && x < |v.tvbs[s].entries|
    ensures LastEpoch(h, TOP, Key(v.tvbs[s].entries[x].edge)) > EndEpoch(v)
  {
    var b := v.tvbs[s];
    assert TvbOk(h, EndEpoch(v), s, b);
    EntryKey(h, b.timestamp, b.entries, x);
    assert WrittenAt(h, b.timestamp, WritesOf(h, b.timestamp)[x].key);
  }

  // ---- Small steps of the model ----

  lemma DroppedKeys(items: map<nat, Item>, loc: map<nat, Where>, oldest: nat, after: map<nat, Item>)
    returns (gone: set<nat>)
    requires AfterMerge(items, loc, oldest, after)
    ensures after == items - gone && forall k :: k in gone ==> k in items && Droppable(items[k], oldest)
  {
    gone := items.Keys - after.Keys;
    assert after.Keys == items.Keys - gone;
  }

  lemma DropAs(v: Vertex, h: Log, mark: nat, loc: map<nat, Where>, oldest: nat, after: map<nat, Item>)
    requires Inv(v, h, mark) && oldest <= mark && AfterMerge(v.items, loc, oldest, after)
    ensures Inv(v.(items := after), h, mark)
  {
    var gone := DroppedKeys(v.items, loc, oldest, after);
    DropKeeps(v, h, mark, oldest, gone);
  }

  // The slot of epoch e, taken over if it still carries another epoch's stamp.
  function Claim(tvbs: seq<TmpVersionBlock>, e: nat): (r: seq<TmpVersionBlock>)
    requires |tvbs| == 16
    ensures |r| == 16
  {
    tvbs[e % 16 := Claimed(tvbs[e % 16], e)]
  }

  // The conflict check: a reading transaction may not overwrite a version newer than its snapshot.
  predicate Admits(it: Item, epoch: nat, writeOnly: bool, readEpoch: nat) {
    var last := if IsDelete(it.e.word) then 0 else Coarse(it.e.block);
    (writeOnly || last <= readEpoch) && last <= epoch
  }

  // A refused write has claimed its slot and changed nothing else.
  function Refused(v: Vertex, e: nat): Vertex
    requires |v.tvbs| == 16
  {
    v.(tvbs := Claim(v.tvbs, e))
  }

  lemma RefusedKeeps(v: Vertex, h: Log, mark: nat, e: nat)
    requires Inv(v, h, mark) && (v.tvbs[e % 16].timestamp == e || v.tvbs[e % 16].entries == [])
    ensures Inv(Refused(v, e), h, mark)
  {
    var r := Claim(v.tvbs, e);
    forall s | 0 <= s < 16
      ensures TvbOk(h, EndEpoch(v), s, r[s])
    {
      assert TvbOk(h, EndEpoch(v), s, v.tvbs[s]);
    }
  }

  lemma ClaimOnce(tvbs: seq<TmpVersionBlock>, e: nat, n: Entry, isTmp: bool)
    requires |tvbs| == 16
    ensures AddEntry(Claim(tvbs, e), e, n, isTmp) == AddEntry(tvbs, e, n, isTmp)
  {
    assert Claimed(Claim(tvbs, e)[e % 16], e) == Claim(tvbs, e)[e % 16];
  }

  // The version a write displaces, as the conflict check sees it: deletions count as none.
  function DisplacedBy(h: Log, k: nat): nat {
    if Live(h, TOP, k) then LastEpoch(h, TOP, k) else 0
  }

  // The history after an attempted write.
  function Outcome(h: Log, ok: bool, e: nat, w: Write): Log {
    if ok then Append(h, e, w) else h
  }

  // Edges and temporary version blocks became those of `like`; the published part of v stayed.
  ghost predicate Rewrites(after: Vertex, v: Vertex, like: Vertex) {
    after.items == like.items && after.tvbs == like.tvbs && after.chain == v.chain && after.edgeNum == v.edgeNum
  }

  // The property half of a live edge points at its new entry.
  function NextIndex(tvbs: seq<TmpVersionBlock>, word: nat, e: nat): nat
    requires |tvbs| == 16
  {
    if IsDelete(word) then 0 else |Claim(tvbs, e)[e % 16].entries|
  }

  // What writing `word` through the item `it` makes of edges and temporary version blocks.
  ghost predicate Wrote(items: map<nat, Item>, tvbs: seq<TmpVersionBlock>, after: map<nat, Item>,
                        moved: seq<TmpVersionBlock>, it: Item, word: nat, weight: nat, e: nat, intra: nat,
                            offset: nat, merges: nat, ok: bool)
    requires |tvbs| == 16
  {
    if ok then
      && moved == AddEntry(tvbs, e, EntryFor(it, word, weight, intra, offset, merges, IsDelete(it.e.word)),
          IsTmp(it.e.block))
      && after == items[Key(word) := Item(Slot(word, e + TMPVB_MASK, intra),
                                          Slot(it.p.word, NextIndex(tvbs, word, e), 0))]
    else after == items && moved == Claim(tvbs, e)
  }

  lemma WroteIsPut(v: Vertex, after: Vertex, it: Item, k: nat, weight: nat, e: nat, intra: nat, offset: nat,
                   merges: nat, stale: Slot, ok: bool)
    requires |v.tvbs| == 16 && k < DELETION_MASK && it == Current(v, k, weight, stale) && (!ok ==> k in v.items)
    requires Wrote(v.items[k := it], v.tvbs, after.items, after.tvbs, it, k, weight, e, intra, offset, merges, ok)
    requires after.chain == v.chain && after.edgeNum == v.edgeNum
    ensures Rewrites(after, v, if ok then Put(v, k, weight, e, intra, offset, merges, stale) else Refused(v, e))
  {
  }

  lemma WroteIsDelete(v: Vertex, after: Vertex, k: nat, weight: nat, e: nat, intra: nat, offset: nat, merges: nat,
                      ok: bool)
    requires |v.tvbs| == 16 && k < DELETION_MASK && k in v.items && !IsDelete(v.items[k].e.word)
    requires Wrote(v.items, v.tvbs, after.items, after.tvbs, v.items[k], k + DELETION_MASK, weight, e, intra,
        offset, merges, ok)
    requires after.chain == v.chain && after.edgeNum == v.edgeNum
    ensures Rewrites(after, v, if ok then Delete(v, k, weight, e, intra, offset, merges) else Refused(v, e))
  {
  }

  lemma PutOutcome(v: Vertex, h: Log, mark: nat, k: nat, weight: nat, e: nat, intra: nat, offset: nat, merges: nat,
                   stale: Slot, writeOnly: bool, readEpoch: nat, ok: bool, after: Vertex)
    requires Inv(v, h, mark) && MayWrite(v, h, k, e, intra)
    requires ok <==> Admits(Current(v, k, weight, stale), e, writeOnly, readEpoch)
    requires Rewrites(after, v, if ok then Put(v, k, weight, e, intra, offset, merges, stale) else Refused(v, e))
    ensures Inv(after, Outcome(h, ok, e, Write(k, false, weight, intra)), mark)
    ensures ok <==> writeOnly || DisplacedBy(h, k) <= readEpoch
  {
    assert after == if ok then Put(v, k, weight, e, intra, offset, merges, stale) else Refused(v, e);
    if ok {
      PutKeeps(v, h, mark, k, weight, e, intra, offset, merges, stale);
    } else {
      RefusedKeeps(v, h, mark, e);
    }
    HeadBefore(v, h, mark, k, e, intra);
  }

  lemma DeleteOutcome(v: Vertex, h: Log, mark: nat, k: nat, weight: nat, e: nat, intra: nat, offset: nat, merges: nat,
                      writeOnly: bool, readEpoch: nat, ok: bool, after: Vertex)
    requires Inv(v, h, mark) && MayWrite(v, h, k, e, intra) && NotDeleted(h, k)
    requires ok <==> k in v.items && Admits(v.items[k], e, writeOnly, readEpoch)
    requires Rewrites(after, v, if ok then Delete(v, k, weight, e, intra, offset, merges)
                                else if k in v.items then Refused(v, e) else v)
    ensures Inv(after, Outcome(h, ok, e, Write(k, true, weight, intra)), mark)
    ensures ok <==> Live(h, TOP, k) && (writeOnly || LastEpoch(h, TOP, k) <= readEpoch)
  {
    assert after == if ok then Delete(v, k, weight, e, intra, offset, merges)
                    else if k in v.items then Refused(v, e) else v;
    StoredIffLive(v, h, mark, k);
    if ok {
      DeleteKeeps(v, h, mark, k, weight, e, intra, offset, merges);
    } else {
      RefusedKeeps(v, h, mark, e);
    }
    HeadBefore(v, h, mark, k, e, intra);
  }

  // The newest write of the edge, if any, is not a deletion.
  ghost predicate NotDeleted(h: Log, k: nat) {
    LastEpoch(h, TOP, k) > 0 ==> !LastWrite(h, LastEpoch(h, TOP, k), k).del
  }

  lemma StoredIffLive(v: Vertex, h: Log, mark: nat, k: nat)
    requires Inv(v, h, mark) && NotDeleted(h, k)
    ensures k in v.items <==> Live(h, TOP, k)
    ensures k in v.items ==> !IsDelete(v.items[k].e.word) && DisplacedBy(h, k) == LastEpoch(h, TOP, k)
  {
    assert KeyOk(h, EndEpoch(v), mark, v.items, k);
  }

  lemma ReplayNext(items: map<nat, Item>, s: seq<Entry>, i: nat, t: nat)
    requires i < |s|
    ensures Replay(items, s[..i + 1], t) == Apply(Replay(items, s[..i], t), s[i], t)
  {
    assert s[..i + 1][..i] == s[..i];
  }

  ghost predicate Result(r: Replayed, items: map<nat, Item>, recs: seq<Item>, net: int) {
    r.items == items && r.recs == recs && r.net == net
  }

  lemma ReplayWhole(items: map<nat, Item>, s: seq<Entry>, t: nat)
    ensures Replay(items, s[..|s|], t) == Replay(items, s, t)
  {
    assert s[..|s|] == s;
  }

  ghost predicate AllAt(es: seq<Entry>, loc: map<nat, Where>, merges: nat) {
    forall x {:trigger EntryAt(es[x], loc, merges)} :: 0 <= x < |es| ==> EntryAt(es[x], loc, merges)
  }

  // A deletion always displaces a version, so the branch for deletions in the first loop is never taken.
  lemma DeletesDisplace(v: Vertex, h: Log, mark: nat, t: nat, order: seq<nat>)
    requires Inv(v, h, mark) && MayPublish(v, h, t, order)
    ensures forall x :: 0 <= x < |v.tvbs[t % 16].entries| && v.tvbs[t % 16].entries[x].lastEpoch == 0 ==>
              !IsDelete(v.tvbs[t % 16].entries[x].edge)
  {
    PublishSetting(v, h, mark, t, order);
    var es := v.tvbs[t % 16].entries;
    forall x | 0 <= x < |es| && es[x].lastEpoch == 0
      ensures !IsDelete(es[x].edge)
    {
      assert EntryOk(h, t, x, es[x]);
      EntryKey(h, t, es, x);
    }
  }

  // Past the first displacing entry every entry displaces a version.
  lemma DisplacingTail(es: seq<Entry>, order: seq<nat>, split: nat)
    requires SortedOrder(es, order) && split <= |order|
    requires (split < |order| ==> Arranged(es, order)[split].lastEpoch != 0)
    ensures forall a :: split <= a < |order| ==> Arranged(es, order)[a].lastEpoch != 0
  {
    forall a | split < a < |order|
      ensures Arranged(es, order)[a].lastEpoch != 0
    {
      NotBefore(es, order, split, a);
    }
  }

  lemma ArrangedAt(es: seq<Entry>, order: seq<nat>, loc: map<nat, Where>, merges: nat)
    requires SortedOrder(es, order) && AllAt(es, loc, merges)
    ensures AllAt(Arranged(es, order), loc, merges)
  {
    forall a | 0 <= a < |order|
      ensures EntryAt(Arranged(es, order)[a], loc, merges)
    {
      assert EntryAt(es[order[a]], loc, merges);
    }
  }

  lemma SlotLocated(tvbs: seq<TmpVersionBlock>, loc: map<nat, Where>, merges: nat, s: nat)
    requires Located(tvbs, loc, merges) && s < |tvbs|
    ensures AllAt(tvbs[s].entries, loc, merges)
  {
    forall x | 0 <= x < |tvbs[s].entries|
      ensures EntryAt(tvbs[s].entries[x], loc, merges)
    {
    }
  }

  class VertexEdges {
    const store: EdgeStore
    var tvbs: seq<TmpVersionBlock>      // the 16 temporary version blocks, by epoch mod 16
    var chain: seq<VersionBlock>        // published blocks, oldest first
    var freed: nat                      // blocks the garbage collector has deleted
    var vbEnd: int                      // vb_end: position of the newest block, -1 for nullptr
    var endEpoch: nat
    var edgeNum: int
    ghost var hist: Log
    ghost var mark: nat                 // the watermark g_oldest_epoch has reached

    ghost function View(): Vertex
      reads this, store
    {
      Vertex(store.view.items, tvbs, chain, edgeNum)
    }

    ghost predicate Valid()
      reads this, store, store.start, store.tmpItem, store.M, store.M.hashtable
    {
      Fits(hist)
    }

    constructor ()
      ensures Valid() && fresh(store) && fresh(store.start) && fresh(store.tmpItem) && fresh(store.M)
      ensures fresh(store.M.hashtable)
      ensures hist == map[] && mark == 0 && chain == []
    {
      store := new EdgeStore();
      tvbs := seq(16, _ => TmpVersionBlock(0, []));
      chain, freed, vbEnd, endEpoch, edgeNum := [], 0, -1, 0, 0;
      hist, mark := map[], 0;
      new;
      EmptyOk(View());
    }

    // All of Valid() but for the history that View() is measured against.
    ghost predicate Fits(h: Log)
      reads this, store, store.start, store.tmpItem, store.M, store.M.hashtable
    {
      && store.Valid()
      && Inv(View(), h, mark)
      && Located(tvbs, store.view.loc, store.mergeTimes)
      && vbEnd == |chain| - 1 && endEpoch == EndEpoch(View())
      && freed <= |chain| && forall i :: 0 <= i < freed ==> chain[i].timestamp < mark
    }

    ghost method Settle(h: Log)
      requires Fits(h)
      modifies this`hist
      ensures Valid() && hist == h
    {
      hist := h;
    }

    // The merge, seen from the versions: only edges no reader needs leave.
    method Merge(oldest: nat, order: seq<nat>)
      requires Valid() && store.tmpEv == 64 && BufferOrder(store.view.buf, order) && oldest <= mark
      modifies store, store.start, store.M, store.M.hashtable
      ensures Valid() && store.tmpEv == 0 && store.num <= old(store.num)
      ensures store.M.hashtable == old(store.M.hashtable) && (store.start == old(store.start) || fresh(store.start))
      ensures AfterMerge(old(store.view.items), old(store.view.loc), oldest, store.view.items)
    {
      ghost var v, layout, merges := View(), store.view, store.mergeTimes;
      store.MergeTmpevWithEb(oldest, order);
      DropAs(v, hist, mark, layout.loc, oldest, store.view.items);
      store.AllInPrimary();
      LocatedMerge(v, hist, mark, layout.loc, merges, oldest, store.view.items, store.view.loc);
    }

    // Finds the edge's item, or makes one in the buffer.
    method FindOrAppend(key: nat, weight: nat) returns (w: Where, it: Item, stale: Slot)
      requires store.Valid() && Located(tvbs, store.view.loc, store.mergeTimes)
      requires key < DELETION_MASK && store.tmpEv < 64 && store.num < TMPVB_MASK
      requires key in store.view.items ==> !PastEndHit(store.view.pa, store.PastEnd(), key)
      modifies store`num, store`tmpEv, store`view, store.tmpItem, store.M, store.M.hashtable
      ensures store.Valid() && Located(tvbs, store.view.loc, store.mergeTimes)
      ensures store.M.hashtable == old(store.M.hashtable) || fresh(store.M.hashtable)
      ensures it == Current(old(View()), key, weight, stale) && KeyOf(it) == key
      ensures store.view.items == old(store.view.items)[key := it]
      ensures key in store.view.loc && store.view.loc[key] == w && Decode(Encode(w)) == w
    {
      var known := store.M.GetDestHashTableVal(key);
      if known {
        var found;
        found, w := store.GetEdgeIndex(key);
        assert Held(store.view.pa, store.view.buf, store.view.items, store.view.loc, key);
        it := store.Get(w);
        stale := Slot(0, 0, 0);
      } else {
        LocatedAppend(tvbs, store.view.loc, store.mergeTimes, key, InBuf(store.tmpEv));
        w, stale := store.Append(key, weight);
        it := NewItem(key, weight, stale);
      }
    }

    // Adds the entry to its temporary version block and rewrites the item.
    method Enter(epoch: nat, w: Where, was: Item, n: Entry, next: Item)
      requires store.Valid() && |tvbs| == 16 && Located(tvbs, store.view.loc, store.mergeTimes)
      requires var k := Key(n.edge); k in store.view.loc && store.view.loc[k] == w && KeyOf(next) == k
      requires n.mergeTimes == store.mergeTimes && Decode(n.offset) == w
      modifies this`tvbs, store`view, store.start, store.tmpItem
      ensures store.Valid() && Located(tvbs, store.view.loc, store.mergeTimes)
      ensures tvbs == AddEntry(old(tvbs), epoch, n, IsTmp(was.e.block))
      ensures store.view.items == old(store.view.items)[Key(n.edge) := next]
    {
      LocatedAdd(tvbs, store.view.loc, store.mergeTimes, epoch, n, IsTmp(was.e.block));
      tvbs := AddEntry(tvbs, epoch, n, IsTmp(was.e.block));
      store.Set(Key(n.edge), w, next);
    }

    // Claims the epoch's slot, checks for a conflict and writes; `it` is the item found or appended.
    method WriteAt(word: nat, weight: nat, epoch: nat, intra: nat, writeOnly: bool, readEpoch: nat, w: Where, it: Item)
      returns (ok: bool)
      requires store.Valid() && |tvbs| == 16 && Located(tvbs, store.view.loc, store.mergeTimes)
      requires KeyOf(it) == Key(word) && Key(word) in store.view.loc && store.view.loc[Key(word)] == w
      requires Decode(Encode(w)) == w
      modifies this`tvbs, store`view, store.start, store.tmpItem
      ensures store.Valid() && Located(tvbs, store.view.loc, store.mergeTimes)
      ensures ok <==> Admits(it, epoch, writeOnly, readEpoch)
      ensures Wrote(old(store.view.items), old(tvbs), store.view.items, tvbs, it, word, weight, epoch, intra,
          Encode(w), store.mergeTimes, ok)
    {
      var n := EntryFor(it, word, weight, intra, Encode(w), store.mergeTimes, IsDelete(it.e.word));
      LocatedClaim(tvbs, store.view.loc, store.mergeTimes, epoch);
      ClaimOnce(tvbs, epoch, n, IsTmp(it.e.block));
      tvbs := Claim(tvbs, epoch);
      ok := (writeOnly || n.lastEpoch <= readEpoch) && n.lastEpoch <= epoch;
      if ok {
        var index := if IsDelete(word) then 0 else |tvbs[epoch % 16].entries|;
        Enter(epoch, w, it, n, Item(Slot(word, epoch + TMPVB_MASK, intra), Slot(it.p.word, index, 0)));
      }
    }

    method PutNow(key: nat, weight: nat, epoch: nat, intra: nat, writeOnly: bool, readEpoch: nat)
      returns (ok: bool, ghost offset: nat, ghost stale: Slot)
      requires store.Valid() && |tvbs| == 16 && Located(tvbs, store.view.loc, store.mergeTimes)
      requires key < DELETION_MASK && store.tmpEv < 64 && store.num < TMPVB_MASK
      requires key in store.view.items ==> !PastEndHit(store.view.pa, store.PastEnd(), key)
      modifies this`tvbs, store`num, store`tmpEv, store`view, store.start, store.tmpItem, store.M, store.M.hashtable
      ensures store.Valid() && Located(tvbs, store.view.loc, store.mergeTimes)
      ensures store.M.hashtable == old(store.M.hashtable) || fresh(store.M.hashtable)
      ensures ok <==> Admits(Current(old(View()), key, weight, stale), epoch, writeOnly, readEpoch)
      ensures Rewrites(View(), old(View()),
                       if ok then Put(old(View()), key, weight, epoch, intra, offset, store.mergeTimes, stale)
                       else Refused(old(View()), epoch))
    {
      ghost var v := View();
      var w, it, from := FindOrAppend(key, weight);
      stale, offset := from, Encode(w);
      ok := WriteAt(key, weight, epoch, intra, writeOnly, readEpoch, w, it);
      WroteIsPut(v, View(), it, key, weight, epoch, intra, offset, store.mergeTimes, stale, ok);
    }

    // The deletion of an edge the index knows.
    method DeleteKnown(key: nat, weight: nat, epoch: nat, intra: nat, writeOnly: bool, readEpoch: nat)
      returns (ok: bool, ghost offset: nat)
      requires store.Valid() && |tvbs| == 16 && Located(tvbs, store.view.loc, store.mergeTimes) && key < DELETION_MASK
      requires key in store.view.items && !PastEndHit(store.view.pa, store.PastEnd(), key)
      requires !IsDelete(store.view.items[key].e.word)
      modifies this`tvbs, store`view, store.start, store.tmpItem
      ensures store.Valid() && Located(tvbs, store.view.loc, store.mergeTimes)
      ensures ok <==> Admits(old(store.view.items)[key], epoch, writeOnly, readEpoch)
      ensures Rewrites(View(), old(View()),
                       if ok then Delete(old(View()), key, weight, epoch, intra, offset, store.mergeTimes)
                       else Refused(old(View()), epoch))
    {
      ghost var v := View();
      var found, w := store.GetEdgeIndex(key);
      assert Held(store.view.pa, store.view.buf, store.view.items, store.view.loc, key);
      var it := store.Get(w);
      offset := Encode(w);
      ok := WriteAt(key + DELETION_MASK, weight, epoch, intra, writeOnly, readEpoch, w, it);
      WroteIsDelete(v, View(), key, weight, epoch, intra, offset, store.mergeTimes, ok);
    }

    method DeleteNow(key: nat, weight: nat, epoch: nat, intra: nat, writeOnly: bool, readEpoch: nat)
      returns (ok: bool, ghost offset: nat)
      requires store.Valid() && |tvbs| == 16 && Located(tvbs, store.view.loc, store.mergeTimes) && key < DELETION_MASK
      requires key in store.view.items ==> !PastEndHit(store.view.pa, store.PastEnd(), key)
      requires key in store.view.items ==> !IsDelete(store.view.items[key].e.word)
      modifies this`tvbs, store`view, store.start, store.tmpItem
      ensures store.Valid() && Located(tvbs, store.view.loc, store.mergeTimes)
      ensures ok <==> key in old(store.view.items) && Admits(old(store.view.items)[key], epoch, writeOnly, readEpoch)
      ensures Rewrites(View(), old(View()),
                       if ok then Delete(old(View()), key, weight, epoch, intra, offset, store.mergeTimes)
                       else if key in old(store.view.items) then Refused(old(View()), epoch)
                       else old(View()))
    {
      var known := store.M.GetDestHashTableVal(key);
      if known {
        ok, offset := DeleteKnown(key, weight, epoch, intra, writeOnly, readEpoch);
      } else {
        ok, offset := false, 0;
      }
    }

    // A full buffer is merged first; after that the search cannot go past the end for a stored key.
    method MakeRoom(key: nat, oldest: nat, order: seq<nat>)
      requires Valid() && (store.tmpEv == 64 ==> BufferOrder(store.view.buf, order) && oldest <= mark)
      requires store.tmpEv < 64 && key in store.view.items ==> !PastEndHit(store.view.pa, store.PastEnd(), key)
      modifies store, store.start, store.M, store.M.hashtable
      ensures Valid() && store.tmpEv < 64 && store.num <= old(store.num)
      ensures store.M.hashtable == old(store.M.hashtable) && (store.start == old(store.start) || fresh(store.start))
      ensures forall k :: k in store.view.items ==>
                k in old(store.view.items) && store.view.items[k] == old(store.view.items)[k]
      ensures key in store.view.items ==> !PastEndHit(store.view.pa, store.PastEnd(), key)
    {
      if store.tmpEv == 64 {
        Merge(oldest, order);
        if key in store.view.items {
          store.NoHitWhenMerged(key);
        }
      }
    }

    // The history gains the write that v has just undergone, if it was admitted.
    ghost method SettlePut(v: Vertex, key: nat, weight: nat, epoch: nat, intra: nat, offset: nat, stale: Slot,
                           writeOnly: bool, readEpoch: nat, ok: bool)
      requires store.Valid() && Located(tvbs, store.view.loc, store.mergeTimes)
      requires Inv(v, hist, mark) && MayWrite(v, hist, key, epoch, intra)
      requires vbEnd == |chain| - 1 && endEpoch == EndEpoch(v)
      requires freed <= |chain| && forall i :: 0 <= i < freed ==> chain[i].timestamp < mark
      requires ok <==> Admits(Current(v, key, weight, stale), epoch, writeOnly, readEpoch)
      requires Rewrites(View(), v, if ok then Put(v, key, weight, epoch, intra, offset, store.mergeTimes, stale)
          else Refused(v, epoch))
      modifies this`hist
      ensures Valid() && hist == Outcome(old(hist), ok, epoch, Write(key, false, weight, intra))
      ensures ok <==> writeOnly || DisplacedBy(old(hist), key) <= readEpoch
    {
      PutOutcome(v, hist, mark, key, weight, epoch, intra, offset, store.mergeTimes, stale, writeOnly, readEpoch, ok,
                 View());
      Settle(Outcome(hist, ok, epoch, Write(key, false, weight, intra)));
    }

    method InsertWithRoom(key: nat, weight: nat, epoch: nat, intra: nat, writeOnly: bool, readEpoch: nat)
      returns (ok: bool)
      requires Valid() && MayWrite(View(), hist, key, epoch, intra) && store.tmpEv < 64 && store.num < TMPVB_MASK
      requires key in store.view.items ==> !PastEndHit(store.view.pa, store.PastEnd(), key)
      modifies this`tvbs, this`hist, store`num, store`tmpEv, store`view, store.start, store.tmpItem, store.M,
          store.M.hashtable
      ensures Valid() && (store.M.hashtable == old(store.M.hashtable) || fresh(store.M.hashtable))
      ensures ok <==> writeOnly || DisplacedBy(old(hist), key) <= readEpoch
      ensures hist == Outcome(old(hist), ok, epoch, Write(key, false, weight, intra))
    {
      ghost var v := View();
      ghost var offset, stale;
      ok, offset, stale := PutNow(key, weight, epoch, intra, writeOnly, readEpoch);
      SettlePut(v, key, weight, epoch, intra, offset, stale, writeOnly, readEpoch, ok);
    }

    // insert_edge_block: an insertion, an overwrite, or an insertion after a deletion. It is refused
    // exactly when a reading transaction would overwrite a version newer than its snapshot.
    method InsertEdgeBlock(key: nat, weight: nat, epoch: nat, intra: nat, writeOnly: bool, readEpoch: nat,
                           oldest: nat, order: seq<nat>) returns (ok: bool)
      requires Valid() && MayWrite(View(), hist, key, epoch, intra) && store.num < TMPVB_MASK
      requires store.tmpEv == 64 ==> BufferOrder(store.view.buf, order) && oldest <= mark
      requires store.tmpEv < 64 && key in store.view.items ==> !PastEndHit(store.view.pa, store.PastEnd(), key)
      modifies this`tvbs, this`hist, store, store.start, store.tmpItem, store.M, store.M.hashtable
      ensures Valid() && (store.M.hashtable == old(store.M.hashtable) || fresh(store.M.hashtable))
      ensures store.start == old(store.start) || fresh(store.start)
      ensures ok <==> writeOnly || DisplacedBy(old(hist), key) <= readEpoch
      ensures hist == Outcome(old(hist), ok, epoch, Write(key, false, weight, intra))
    {
      MakeRoom(key, oldest, order);
      ok := InsertWithRoom(key, weight, epoch, intra, writeOnly, readEpoch);
    }

    method DeleteWithRoom(key: nat, weight: nat, epoch: nat, intra: nat, writeOnly: bool, readEpoch: nat)
      returns (ok: bool)
      requires Valid() && MayWrite(View(), hist, key, epoch, intra) && NotDeleted(hist, key)
      requires key in store.view.items ==> !PastEndHit(store.view.pa, store.PastEnd(), key)
      modifies this`tvbs, this`hist, store`view, store.start, store.tmpItem
      ensures Valid()
      ensures ok <==> Live(old(hist), TOP, key) && (writeOnly || LastEpoch(old(hist), TOP, key) <= readEpoch)
      ensures hist == Outcome(old(hist), ok, epoch, Write(key, true, weight, intra))
    {
      ghost var v := View();
      ghost var offset;
      StoredIffLive(v, hist, mark, key);
      ok, offset := DeleteNow(key, weight, epoch, intra, writeOnly, readEpoch);
      DeleteOutcome(v, hist, mark, key, weight, epoch, intra, offset, store.mergeTimes, writeOnly, readEpoch, ok,
                    View());
      Settle(Outcome(hist, ok, epoch, Write(key, true, weight, intra)));
    }

    // delete_edge_block. It does not look whether the edge is deleted already; its caller must not ask.
    method DeleteEdgeBlock(key: nat, weight: nat, epoch: nat, intra: nat, writeOnly: bool, readEpoch: nat,
                           oldest: nat, order: seq<nat>) returns (ok: bool)
      requires Valid() && MayWrite(View(), hist, key, epoch, intra) && NotDeleted(hist, key)
      requires store.tmpEv == 64 ==> BufferOrder(store.view.buf, order) && oldest <= mark
      requires store.tmpEv < 64 && key in store.view.items ==> !PastEndHit(store.view.pa, store.PastEnd(), key)
      modifies this`tvbs, this`hist, store, store.start, store.tmpItem, store.M, store.M.hashtable
      ensures Valid()
      ensures store.M.hashtable == old(store.M.hashtable)
      ensures store.start == old(store.start) || fresh(store.start)
      ensures ok <==> Live(old(hist), TOP, key) && (writeOnly || LastEpoch(old(hist), TOP, key) <= readEpoch)
      ensures hist == Outcome(old(hist), ok, epoch, Write(key, true, weight, intra))
    {
      MakeRoom(key, oldest, order);
      ok := DeleteWithRoom(key, weight, epoch, intra, writeOnly, readEpoch);
    }

    // One replayed entry: finds its edge and moves the head.
    method ApplyEntry(n: Entry, t: nat, j: nat) returns (was: Item)
      requires store.Valid() && EntryAt(n, store.view.loc, store.mergeTimes)
      modifies store`view, store.start, store.tmpItem
      ensures store.Valid() && store.view.loc == old(store.view.loc) && Key(n.edge) in old(store.view.items)
      ensures was == old(store.view.items)[Key(n.edge)]
      ensures store.view.items == old(store.view.items)[Key(n.edge) := NewHead(was, n, t, j)]
    {
      var k := Key(n.edge);
      assert Held(store.view.pa, store.view.buf, store.view.items, store.view.loc, k);
      var w;
      if n.mergeTimes != store.mergeTimes {
        w := store.GetEdgeIndex2(k);
      } else {
        w := Decode(n.offset);
      }
      was := store.Get(w);
      store.Set(k, w, NewHead(was, n, t, j));
    }

    // The first replay loop: insertions that displace nothing, up to the first entry that does.
    method ReplayFresh(s: seq<Entry>, t: nat) returns (i: nat, net: int)
      requires store.Valid() && AllAt(s, store.view.loc, store.mergeTimes)
      requires forall x :: 0 <= x < |s| && s[x].lastEpoch == 0 ==> !IsDelete(s[x].edge)
      modifies store`view, store.start, store.tmpItem
      ensures store.Valid() && store.view.loc == old(store.view.loc)
      ensures i <= |s| && (i < |s| ==> s[i].lastEpoch != 0)
      ensures Result(Replay(old(store.view.items), s[..i], t), store.view.items, [], net)
    {
      ghost var items, loc := store.view.items, store.view.loc;
      i, net := 0, 0;
      while i < |s| && s[i].lastEpoch == 0
        invariant i <= |s|
        invariant store.Valid() && store.view.loc == loc
        invariant Result(Replay(items, s[..i], t), store.view.items, [], net)
      {
        assert EntryAt(s[i], loc, store.mergeTimes);
        ReplayNext(items, s, i, t);
        var was := ApplyEntry(s[i], t, 0);
        net := net + 1;
        i := i + 1;
      }
    }

    // An entry that displaces a version records it.
    method Displace(n: Entry, t: nat, recs: seq<Item>, net: int, ghost r: Replayed) returns (more: seq<Item>, sum: int)
      requires store.Valid() && EntryAt(n, store.view.loc, store.mergeTimes) && n.lastEpoch != 0
      requires Result(r, store.view.items, recs, net)
      modifies store`view, store.start, store.tmpItem
      ensures store.Valid() && store.view.loc == old(store.view.loc)
      ensures Result(Apply(r, n, t), store.view.items, more, sum)
    {
      var was := ApplyEntry(n, t, |recs|);
      more := recs + [Record(was, n)];
      sum := net + if IsDelete(n.edge) then -1 else 1;
    }

    // The second replay loop.
    method ReplayDisplacing(s: seq<Entry>, t: nat, split: nat, inserted: int, ghost items: map<nat, Item>)
      returns (recs: seq<Item>, net: int)
      requires store.Valid() && split <= |s| && AllAt(s, store.view.loc, store.mergeTimes)
      requires forall x :: split <= x < |s| ==> s[x].lastEpoch != 0
      requires Result(Replay(items, s[..split], t), store.view.items, [], inserted)
      modifies store`view, store.start, store.tmpItem
      ensures store.Valid() && store.view.loc == old(store.view.loc)
      ensures Result(Replay(items, s, t), store.view.items, recs, net)
    {
      ghost var loc := store.view.loc;
      recs, net := [], inserted;
      for i := split to |s|
        invariant store.Valid() && store.view.loc == loc
        invariant Result(Replay(items, s[..i], t), store.view.items, recs, net)
      {
        assert EntryAt(s[i], loc, store.mergeTimes);
        ReplayNext(items, s, i, t);
        recs, net := Displace(s[i], t, recs, net, Replay(items, s[..i], t));
      }
      ReplayWhole(items, s, t);
    }

    method ReplayEntries(es: seq<Entry>, order: seq<nat>, t: nat) returns (recs: seq<Item>, net: int)
      requires store.Valid() && SortedOrder(es, order) && AllAt(es, store.view.loc, store.mergeTimes)
      requires forall x :: 0 <= x < |es| && es[x].lastEpoch == 0 ==> !IsDelete(es[x].edge)
      modifies store`view, store.start, store.tmpItem
      ensures store.Valid() && store.view.loc == old(store.view.loc)
      ensures Result(Replay(old(store.view.items), Arranged(es, order), t), store.view.items, recs, net)
    {
      ghost var items := store.view.items;
      ArrangedAt(es, order, store.view.loc, store.mergeTimes);
      var split, inserted := ReplayFresh(Arranged(es, order), t);
      DisplacingTail(es, order, split);
      recs, net := ReplayDisplacing(Arranged(es, order), t, split, inserted, items);
    }

    // PushVB: the block goes to the end of the chain.
    method PushVB(t: nat, net: int, recs: seq<Item>)
      requires vbEnd == |chain| - 1
      modifies this`chain, this`vbEnd, this`endEpoch, this`edgeNum
      ensures chain == old(chain) + [VersionBlock(t, old(endEpoch), |old(chain)| - 1, net, recs)]
      ensures vbEnd == |chain| - 1 && endEpoch == t && edgeNum == old(edgeNum) + net
    {
      edgeNum := edgeNum + net;
      chain := chain + [VersionBlock(t, endEpoch, vbEnd, net, recs)];
      vbEnd := |chain| - 1;
      endEpoch := t;
    }

    method TransformNow(t: nat, order: seq<nat>)
      requires store.Valid() && |tvbs| == 16 && Located(tvbs, store.view.loc, store.mergeTimes)
      requires vbEnd == |chain| - 1 && endEpoch == EndEpoch(View())
      requires tvbs[t % 16].entries != [] && SortedOrder(tvbs[t % 16].entries, order)
      requires forall x :: 0 <= x < |tvbs[t % 16].entries| && tvbs[t % 16].entries[x].lastEpoch == 0 ==>
                 !IsDelete(tvbs[t % 16].entries[x].edge)
      modifies this`tvbs, this`chain, this`vbEnd, this`endEpoch, this`edgeNum, store`view, store.start, store.tmpItem
      ensures store.Valid() && Located(tvbs, store.view.loc, store.mergeTimes)
      ensures vbEnd == |chain| - 1 && endEpoch == t && View() == VertexModel.Transform(old(View()), t, order)
    {
      SlotLocated(tvbs, store.view.loc, store.mergeTimes, t % 16);
      LocatedDrain(tvbs, store.view.loc, store.mergeTimes, t % 16);
      var recs, net := ReplayEntries(tvbs[t % 16].entries, order, t);
      PushVB(t, net, recs);
      tvbs := tvbs[t % 16 := tvbs[t % 16].(entries := [])];
    }

    // Transform: one epoch's unpublished entries become a block of displaced versions, under any
    // order the sort may leave; an epoch that wrote nothing here publishes nothing.
    method Transform(t: nat, order: seq<nat>)
      requires Valid() && (tvbs[t % 16].entries != [] ==> MayPublish(View(), hist, t, order))
      modifies this`tvbs, this`chain, this`vbEnd, this`endEpoch, this`edgeNum, store`view, store.start, store.tmpItem
      ensures Valid() && endEpoch == if old(tvbs)[t % 16].entries == [] then old(endEpoch) else t
      ensures |tvbs| == 16 && tvbs[t % 16].entries == []
      ensures forall s :: 0 <= s < 16 && s != t % 16 ==> tvbs[s] == old(tvbs)[s]
    {
      if tvbs[t % 16].entries != [] {
        ghost var v := View();
        DeletesDisplace(v, hist, mark, t, order);
        TransformNow(t, order);
        TransformKeeps(v, hist, mark, t, order);
      }
    }

    method FreeBelow(oldest: nat)
      requires freed <= |chain| && forall i :: 0 <= i < freed ==> chain[i].timestamp < oldest
      requires forall i, j :: 0 <= i < j < |chain| ==> chain[i].timestamp < chain[j].timestamp
      modifies this`freed
      ensures old(freed) <= freed <= |chain|
      ensures forall i :: 0 <= i < |chain| ==> (i < freed <==> chain[i].timestamp < oldest)
    {
      while freed < |chain| && chain[freed].timestamp < oldest
        invariant old(freed) <= freed <= |chain|
        invariant forall i :: 0 <= i < freed ==> chain[i].timestamp < oldest
      {
        freed := freed + 1;
      }
    }

    // A round of garbage collection: the watermark rises and the blocks below it are deleted, oldest
    // first. Links to them dangle from now on.
    method Collect(oldest: nat)
      requires Valid() && mark <= oldest < TMPVB_MASK
      modifies this`freed, this`mark
      ensures Valid() && mark == oldest && freed >= old(freed)
      ensures forall i :: 0 <= i < |chain| ==> (i < freed <==> chain[i].timestamp < oldest)
    {
      MarkMayRise(View(), hist, mark, oldest);
      Ascending(hist, chain);
      FreeBelow(oldest);
      mark := oldest;
    }
  }
}
