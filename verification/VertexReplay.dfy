// What VertexEdges::Transform (data-structure/EdgeBlock/VertexEdges.cpp:39-242) leaves behind for
// one epoch, whatever order std::sort picks among equal entries.
module VertexReplay {
  import opened Basics
  import opened History
  import opened VertexState

  // The weight kept for the last version of k in epoch t: a version inserted right after a
  // deletion in the same epoch is stored with weight 0, because the deletion is replayed later.
  function StoredWeight(h: Log, t: nat, k: nat): nat
    requires WrittenAt(h, t, k)
  {
    var ws := WritesOf(h, t);
    if Reinserts(ws, LastIn(ws, k)) then 0 else ws[LastIn(ws, k)].weight
  }

  predicate ReinsertedIn(ws: seq<Write>, k: nat) {
    exists i: nat :: i < |ws| && ws[i].key == k && Reinserts(ws, i)
  }

  // Net change of the edge count in an epoch.
  function Net(ws: seq<Write>): int {
    if ws == [] then 0 else Net(ws[..|ws| - 1]) + if ws[|ws| - 1].del then -1 else 1
  }

  // The stamp of the write before write i to the same edge in the epoch.
  function OldStamp(ws: seq<Write>, i: nat): nat
    requires i < |ws|
  {
    if PrevIn(ws, i) < 0 then 0 else ws[PrevIn(ws, i)].intra
  }

  // How the comparator orders two writes of one edge in epoch t: by the epoch of the version displaced,
  // then, for versions of t itself, by that version's stamp.
  predicate SortsBefore(h: Log, t: nat, i: nat, j: nat)
    requires t > 0 && i < |WritesOf(h, t)| && j < |WritesOf(h, t)|
  {
    var ws := WritesOf(h, t);
    var a, b := Displaced(h, t, i), Displaced(h, t, j);
    a < b || (a == b == t && OldStamp(ws, i) < OldStamp(ws, j))
  }

  // No write of k in epoch t sorts after write i.
  ghost predicate SortsLast(h: Log, t: nat, k: nat, i: nat)
    requires t > 0
  {
    && i < |WritesOf(h, t)| && WritesOf(h, t)[i].key == k
    && forall j: nat :: j < |WritesOf(h, t)| && WritesOf(h, t)[j].key == k ==> !SortsBefore(h, t, i, j)
  }

  // The weight a write leaves in the primary array when it is the last one replayed.
  function Leaves(w: Write): nat {
    if w.del then 0 else w.weight
  }

  // Epoch t may leave this weight for k, and leaves no other.
  ghost predicate MayLeave(h: Log, t: nat, k: nat, weight: nat)
    requires t > 0
  {
    exists i: nat {:trigger SortsLast(h, t, k, i)} :: SortsLast(h, t, k, i) && Leaves(WritesOf(h, t)[i]) == weight
  }

  ghost predicate MustLeave(h: Log, t: nat, k: nat, weight: nat)
    requires t > 0
  {
    forall i: nat {:trigger SortsLast(h, t, k, i)} :: SortsLast(h, t, k, i) ==> Leaves(WritesOf(h, t)[i]) == weight
  }

  // A published block tells exactly which versions its epoch displaced.
  ghost predicate RecordOk(h: Log, t: nat, rec: Item)
    requires t > 0
  {
    var k, l := rec.e.word, rec.e.block;
    && 1 <= l <= t && k < DELETION_MASK && rec.p.index < INTRA_MAX
    && (l < t ==>
         && WrittenAt(h, t, k) && Live(h, t - 1, k) && LastEpoch(h, t - 1, k) == l
         && (!ReinsertedIn(WritesOf(h, t), k) ==> MayLeave(h, l, k, rec.p.word))
         && (ReinsertedIn(WritesOf(h, t), k) ==> ReinsertWeight(WritesOf(h, t), k, rec.p.word)))
  }

  predicate ReinsertWeight(ws: seq<Write>, k: nat, weight: nat) {
    exists i: nat :: i < |ws| && ws[i].key == k && Reinserts(ws, i) && ws[i].weight == weight
  }

  predicate AllReinsert(ws: seq<Write>, k: nat, weight: nat) {
    forall i: nat :: i < |ws| && ws[i].key == k && Reinserts(ws, i) ==> ws[i].weight == weight
  }

  ghost predicate Sorted(recs: seq<Item>) {
    forall m, n :: 0 <= m < n < |recs| ==> recs[m].e.block <= recs[n].e.block
  }

  ghost predicate BlockOk(h: Log, t: nat, recs: seq<Item>)
    requires t > 0
  {
    && Sorted(recs)
    && (forall m :: 0 <= m < |recs| ==> RecordOk(h, t, recs[m]))
    && (forall m, n :: 0 <= m < n < |recs| && recs[m].e.block < t && recs[n].e.block < t ==>
          recs[m].e.word != recs[n].e.word)
    && (forall k :: WrittenAt(h, t, k) && Live(h, t - 1, k) ==> Recorded(recs, k, LastEpoch(h, t - 1, k)))
  }

  ghost predicate Recorded(recs: seq<Item>, k: nat, l: nat) {
    exists m :: 0 <= m < |recs| && recs[m].e.word == k && recs[m].e.block == l
  }

  // ---- Facts about one epoch's writes ----

  lemma FirstWrite(ws: seq<Write>, k: nat) returns (i: nat)
    requires LastIn(ws, k) >= 0
    ensures i < |ws| && ws[i].key == k && PrevIn(ws, i) == -1
  {
    i := LastIn(ws, k);
    while PrevIn(ws, i) >= 0
      invariant i < |ws| && ws[i].key == k
    {
      i := PrevIn(ws, i);
    }
  }

  lemma NextWrite(ws: seq<Write>, i: nat) returns (j: nat)
    requires i < |ws| && LastIn(ws, ws[i].key) > i
    ensures i < j < |ws| && ws[j].key == ws[i].key && PrevIn(ws, j) == i
  {
    j := LastIn(ws, ws[i].key);
    while PrevIn(ws, j) != i
      invariant i < j < |ws| && ws[j].key == ws[i].key
    {
      j := PrevIn(ws, j);
    }
  }

  // ---- Facts about the order ----

  ghost predicate Setting(h: Log, t: nat, items: map<nat, Item>, es: seq<Entry>, order: seq<nat>) {
    && EntriesOk(h, t, es) && SortedOrder(es, order) && WellFormedWrites(WritesOf(h, t))
    && forall i :: 0 <= i < |es| ==> WritesOf(h, t)[i].key in items
  }

  lemma EntryKey(h: Log, t: nat, es: seq<Entry>, i: nat)
    requires EntriesOk(h, t, es) && WellFormedWrites(WritesOf(h, t)) && i < |es|
    ensures Key(es[i].edge) == WritesOf(h, t)[i].key && (IsDelete(es[i].edge) <==> WritesOf(h, t)[i].del)
  {
    assert EntryOk(h, t, i, es[i]);
  }

  lemma ZerosFirst(es: seq<Entry>, order: seq<nat>, a: nat)
    requires SortedOrder(es, order) && Zeros(Arranged(es, order)) <= a < |order|
    ensures es[order[a]].lastEpoch != 0
  {
    var z := Zeros(Arranged(es, order));
    if z < a {
      assert !Before(es[order[a]], es[order[z]]);
    }
  }

  lemma NotBefore(es: seq<Entry>, order: seq<nat>, a: nat, b: nat)
    requires SortedOrder(es, order) && a < b < |order|
    ensures !Before(es[order[b]], es[order[a]])
  {
  }

  lemma Position(es: seq<Entry>, order: seq<nat>, i: nat) returns (a: nat)
    requires SortedOrder(es, order) && i < |es|
    ensures a < |order| && order[a] == i
  {
    assert i in order;
    a :| 0 <= a < |order| && order[a] == i;
  }

  // Between two writes of one edge the comparator decides as SortsBefore says.
  lemma ComparatorIs(h: Log, t: nat, es: seq<Entry>, i: nat, j: nat)
    requires EntriesOk(h, t, es) && i < |es| && j < |es| && WritesOf(h, t)[i].key == WritesOf(h, t)[j].key
    ensures Before(es[i], es[j]) <==> SortsBefore(h, t, i, j)
  {
    assert EntryOk(h, t, i, es[i]) && EntryOk(h, t, j, es[j]);
    var a := Displaced(h, t, i);
    if 0 < a < t && a == Displaced(h, t, j) {
      assert i == j;
    }
  }

  // ---- The head ----

  lemma LastEntry(h: Log, t: nat, items: map<nat, Item>, es: seq<Entry>, order: seq<nat>, k: nat) returns (i: nat)
    requires Setting(h, t, items, es, order) && WrittenAt(h, t, k)
    ensures var s := Arranged(es, order);
            var p := LastFor(s, k);
            && p >= 0 && i == order[p] && i < |es| && WritesOf(h, t)[i].key == k
            && forall a :: p < a < |order| ==> WritesOf(h, t)[order[a]].key != k
  {
    var ws := WritesOf(h, t);
    var s := Arranged(es, order);
    var b := Position(es, order, LastIn(ws, k));
    EntryKey(h, t, es, order[b]);
    var p := LastFor(s, k);
    i := order[p];
    EntryKey(h, t, es, i);
    forall a | p < a < |order|
      ensures ws[order[a]].key != k
    {
      EntryKey(h, t, es, order[a]);
      assert Key(s[a].edge) != k;
    }
  }

  // If entry i of key k is the last one replayed, nothing of k that sorts after it exists.
  lemma NothingAfter(h: Log, t: nat, es: seq<Entry>, order: seq<nat>, p: nat, k: nat, j: nat)
    requires SortedOrder(es, order) && |es| == |WritesOf(h, t)| && p < |order| && j < |es|
    requires WritesOf(h, t)[j].key == k
    requires forall a :: p < a < |order| ==> WritesOf(h, t)[order[a]].key != k
    ensures !Before(es[order[p]], es[j])
  {
    var q := Position(es, order, j);
    if q == p {
      assert !Before(es[j], es[j]);
    }
  }

  // A fresh insertion replayed last is the only write of its key in the epoch.
  lemma FreshIsAlone(h: Log, t: nat, es: seq<Entry>, order: seq<nat>, p: nat, k: nat)
    requires EntriesOk(h, t, es) && SortedOrder(es, order) && p < |order| && order[p] < |es|
    requires WritesOf(h, t)[order[p]].key == k && es[order[p]].lastEpoch == 0
    requires forall a :: p < a < |order| ==> WritesOf(h, t)[order[a]].key != k
    ensures LastIn(WritesOf(h, t), k) == order[p]
  {
    var ws := WritesOf(h, t);
    var i := order[p];
    assert EntryOk(h, t, i, es[i]);
    if LastIn(ws, k) != i {
      var j := NextWrite(ws, i);
      assert EntryOk(h, t, j, es[j]);
      NothingAfter(h, t, es, order, p, k, j);
    }
  }

  // The entry of k that is replayed last belongs to a write that the comparator puts last.
  lemma LastEntrySortsLast(h: Log, t: nat, items: map<nat, Item>, es: seq<Entry>, order: seq<nat>, k: nat, i: nat)
    requires Setting(h, t, items, es, order) && i < |es| && WritesOf(h, t)[i].key == k
    requires var p := LastFor(Arranged(es, order), k);
             p >= 0 && order[p] == i && forall a :: p < a < |order| ==> WritesOf(h, t)[order[a]].key != k
    ensures SortsLast(h, t, k, i)
  {
    var p := LastFor(Arranged(es, order), k);
    forall j: nat | j < |es| && WritesOf(h, t)[j].key == k
      ensures !SortsBefore(h, t, i, j)
    {
      NothingAfter(h, t, es, order, p, k, j);
      ComparatorIs(h, t, es, i, j);
    }
  }

  // stamp is that of a write of k which the comparator puts last.
  ghost predicate StampOf(h: Log, t: nat, k: nat, stamp: nat)
    requires t > 0
  {
    exists i: nat {:trigger SortsLast(h, t, k, i)} :: SortsLast(h, t, k, i) && WritesOf(h, t)[i].intra == stamp
  }

  // Every edge written in the epoch ends up with the epoch, and the stamp of the write that stays, as its head.
  lemma HeadMoves(h: Log, t: nat, items: map<nat, Item>, es: seq<Entry>, order: seq<nat>, k: nat)
    requires Setting(h, t, items, es, order) && WrittenAt(h, t, k) && k in items
    ensures var it := Replay(items, Arranged(es, order), t).items[k];
            it.e.block == t && it.e.index < INTRA_MAX && StampOf(h, t, k, it.e.index)
  {
    var i := LastEntry(h, t, items, es, order, k);
    var p := LastFor(Arranged(es, order), k);
    ReplayHead(items, Arranged(es, order), t, k);
    assert EntryOk(h, t, i, es[i]);
    LastEntrySortsLast(h, t, items, es, order, k, i);
    if es[i].lastEpoch == 0 {
      FreshIsAlone(h, t, es, order, p, k);
    }
  }

  // The write of a key that is replayed last: its last one, or the deletion before a re-insertion.
  function LastInEffect(ws: seq<Write>, k: nat): (i: nat)
    requires LastIn(ws, k) >= 0
    ensures i < |ws| && ws[i].key == k
  {
    if Reinserts(ws, LastIn(ws, k)) then PrevIn(ws, LastIn(ws, k)) else LastIn(ws, k)
  }

  // No deletion of an edge that is not there: delete_edge_block leaves that test to its caller.
  ghost predicate Proper(h: Log, t: nat)
    requires t > 0
  {
    forall i :: 0 <= i < |WritesOf(h, t)| && WritesOf(h, t)[i].del ==> Displaced(h, t, i) != 0
  }

  // If the stamps grow in write order, a displacing write sorts after every earlier one of its edge.
  lemma LaterIsReplayedLater(h: Log, t: nat, i: nat, j: nat)
    requires t > 0 && i < j < |WritesOf(h, t)| && WritesOf(h, t)[i].key == WritesOf(h, t)[j].key
    requires Displaced(h, t, j) != 0 && Stamped(WritesOf(h, t), WritesOf(h, t)[j].key)
    ensures SortsBefore(h, t, i, j)
  {
  }

  lemma EffectiveSortsLast(h: Log, t: nat, k: nat, i: nat)
    requires t > 0 && Stamped(WritesOf(h, t), k) && WrittenAt(h, t, k) && Proper(h, t)
    requires i < |WritesOf(h, t)| && WritesOf(h, t)[i].key == k && i != LastInEffect(WritesOf(h, t), k)
    ensures SortsBefore(h, t, i, LastInEffect(WritesOf(h, t), k))
  {
    var ws := WritesOf(h, t);
    var top := LastInEffect(ws, k);
    if i < top {
      LaterIsReplayedLater(h, t, i, top);
    }
  }

  // So growing stamps leave the last write's weight, or 0 if it re-inserts an edge the epoch deleted.
  lemma StampsDecide(h: Log, t: nat, k: nat, weight: nat)
    requires t > 0 && Stamped(WritesOf(h, t), k) && WrittenAt(h, t, k) && Proper(h, t) && !LastWrite(h, t, k).del
    requires MayLeave(h, t, k, weight)
    ensures weight == StoredWeight(h, t, k)
  {
    var i: nat :| SortsLast(h, t, k, i) && Leaves(WritesOf(h, t)[i]) == weight;
    if i != LastInEffect(WritesOf(h, t), k) {
      EffectiveSortsLast(h, t, k, i);
    }
  }

  // The last entry of k in the order leaves its weight.
  lemma LastLeaves(items: map<nat, Item>, s: seq<Entry>, t: nat, k: nat, b: nat)
    requires k in items && LastFor(s, k) == b && b < |s|
    ensures Replay(items, s, t).items[k].p.word ==
              if s[b].lastEpoch != 0 && IsDelete(s[b].edge) then 0 else s[b].weight
  {
    ReplayHead(items, s, t, k);
  }

  // The head's weight is what a write that the comparator puts last leaves, stamps in order or not.
  lemma HeadWeight(h: Log, t: nat, items: map<nat, Item>, es: seq<Entry>, order: seq<nat>, k: nat)
    requires Setting(h, t, items, es, order) && WrittenAt(h, t, k) && k in items
    ensures MayLeave(h, t, k, Replay(items, Arranged(es, order), t).items[k].p.word)
  {
    var i := LastEntry(h, t, items, es, order, k);
    var p := LastFor(Arranged(es, order), k);
    LastEntrySortsLast(h, t, items, es, order, k, i);
    LastLeaves(items, Arranged(es, order), t, k, p);
    assert EntryOk(h, t, i, es[i]);
    EntryKey(h, t, es, i);
  }

  // ---- The records ----

  lemma Keys(h: Log, t: nat, items: map<nat, Item>, es: seq<Entry>, order: seq<nat>)
    requires Setting(h, t, items, es, order)
    ensures var s := Arranged(es, order);
            forall a :: 0 <= a < |s| ==>
              Key(s[a].edge) == WritesOf(h, t)[order[a]].key && Key(s[a].edge) in items
              && (IsDelete(s[a].edge) <==> WritesOf(h, t)[order[a]].del)
  {
    var s := Arranged(es, order);
    forall a | 0 <= a < |s|
      ensures Key(s[a].edge) == WritesOf(h, t)[order[a]].key
      ensures IsDelete(s[a].edge) <==> WritesOf(h, t)[order[a]].del
    {
      EntryKey(h, t, es, order[a]);
    }
  }

  // Position z splits the order: insertions without a predecessor first, displacing writes after.
  ghost predicate SplitAt(s: seq<Entry>, z: nat) {
    z <= |s| && (forall a :: 0 <= a < z ==> s[a].lastEpoch == 0) && (forall a :: z <= a < |s| ==> s[a].lastEpoch != 0)
  }

  lemma Split(es: seq<Entry>, order: seq<nat>) returns (z: nat)
    requires SortedOrder(es, order)
    ensures SplitAt(Arranged(es, order), z)
  {
    var s := Arranged(es, order);
    z := Zeros(s);
    forall a | z <= a < |s|
      ensures s[a].lastEpoch != 0
    {
      ZerosFirst(es, order, a);
    }
  }

  // Record m belongs to the entry at position z + m.
  lemma RecordAt(h: Log, t: nat, items: map<nat, Item>, es: seq<Entry>, order: seq<nat>, z: nat, m: nat)
    requires Setting(h, t, items, es, order) && SplitAt(Arranged(es, order), z)
    ensures var s := Arranged(es, order);
            var recs := Replay(items, s, t).recs;
            && |recs| == |s| - z
            && (m < |recs| ==>
                  && s[z + m].lastEpoch != 0 && Key(s[z + m].edge) in items
                  && recs[m] == Record(Replay(items, s[..z + m], t).items[Key(s[z + m].edge)], s[z + m]))
  {
    Keys(h, t, items, es, order);
    ReplayRecords(items, Arranged(es, order), t, z, m);
  }

  // Before the first displacing entry of a key only its re-insertions have been replayed.
  lemma BeforeTheRecord(h: Log, t: nat, items: map<nat, Item>, es: seq<Entry>, order: seq<nat>, a: nat, b: nat)
    requires Setting(h, t, items, es, order) && b < a < |order|
    requires 0 < es[order[a]].lastEpoch < t && WritesOf(h, t)[order[a]].key == WritesOf(h, t)[order[b]].key
    ensures Reinserts(WritesOf(h, t), order[b]) && es[order[b]].lastEpoch == 0
  {
    var ws := WritesOf(h, t);
    var i, j := order[a], order[b];
    assert EntryOk(h, t, i, es[i]) && EntryOk(h, t, j, es[j]);
    assert PrevIn(ws, i) == -1;
    assert i != j && PrevIn(ws, j) >= 0;
    assert !Before(es[i], es[j]);
  }

  // The weight a record takes from the primary array.
  lemma RecordWeight(h: Log, t: nat, items: map<nat, Item>, es: seq<Entry>, order: seq<nat>, a: nat)
    requires Setting(h, t, items, es, order) && a < |order|
    requires 0 < es[order[a]].lastEpoch < t
    ensures var ws := WritesOf(h, t);
            var k := ws[order[a]].key;
            var word := Replay(items, Arranged(es, order)[..a], t).items[k].p.word;
            if ReinsertedIn(ws, k) then ReinsertWeight(ws, k, word) else word == items[k].p.word
  {
    var ws := WritesOf(h, t);
    var k := ws[order[a]].key;
    var s := Arranged(es, order);
    var front := s[..a];
    Keys(h, t, items, es, order);
    if ReinsertedIn(ws, k) {
      var i: nat :| i < |ws| && ws[i].key == k && Reinserts(ws, i);
      var q := Position(es, order, i);
      ReinsertComesFirst(h, t, es, order, a, i, q);
      assert Key(front[q].edge) == k;
    }
    ReplayHead(items, front, t, k);
    var b := LastFor(front, k);
    if b >= 0 {
      assert front[b] == s[b];
      BeforeTheRecord(h, t, items, es, order, a, b);
      assert EntryOk(h, t, order[b], es[order[b]]);
    }
  }

  lemma ReinsertComesFirst(h: Log, t: nat, es: seq<Entry>, order: seq<nat>, a: nat, i: nat, q: nat)
    requires EntriesOk(h, t, es) && SortedOrder(es, order) && a < |order| && i < |es|
    requires es[order[a]].lastEpoch > 0 && Reinserts(WritesOf(h, t), i)
    requires q < |order| && order[q] == i
    ensures q < a
  {
    assert EntryOk(h, t, i, es[i]);
    if a < q {
      NotBefore(es, order, a, q);
    }
  }

  // ---- The block ----

  // What the primary item of a live edge must hold for the record to be exact.
  ghost predicate WeightsKept(h: Log, t: nat, items: map<nat, Item>)
    requires t > 0
  {
    forall k :: k in items && Live(h, t - 1, k) ==> MayLeave(h, LastEpoch(h, t - 1, k), k, items[k].p.word)
  }

  // Record m carries key and stamps of the entry at position z + m.
  ghost predicate FromEntries(h: Log, t: nat, es: seq<Entry>, order: seq<nat>, z: nat, recs: seq<Item>)
    requires SortedOrder(es, order) && |es| == |WritesOf(h, t)|
  {
    && |recs| == |order| - z
    && (forall m :: 0 <= m < |recs| ==> RecordOf(WritesOf(h, t)[order[z + m]], es[order[z + m]], recs[m]))
    && (forall a :: 0 <= a < |order| && es[order[a]].lastEpoch != 0 ==> a >= z)
  }

  ghost predicate RecordOf(w: Write, n: Entry, rec: Item) {
    rec.e == Slot(w.key, n.lastEpoch, n.oldIntra) && rec.p.index == n.newIntra && n.lastEpoch != 0
  }

  lemma RecordOfAt(h: Log, t: nat, items: map<nat, Item>, es: seq<Entry>, order: seq<nat>, z: nat, m: nat)
    requires Setting(h, t, items, es, order) && SplitAt(Arranged(es, order), z)
    requires m < |order| - z
    ensures var recs := Replay(items, Arranged(es, order), t).recs;
            && |recs| == |order| - z
            && RecordOf(WritesOf(h, t)[order[z + m]], es[order[z + m]], recs[m])
  {
    RecordAt(h, t, items, es, order, z, m);
    EntryKey(h, t, es, order[z + m]);
  }

  lemma RecordsFromEntries(h: Log, t: nat, items: map<nat, Item>, es: seq<Entry>, order: seq<nat>, z: nat,
                           recs: seq<Item>)
    requires Setting(h, t, items, es, order) && SplitAt(Arranged(es, order), z)
    requires recs == Replay(items, Arranged(es, order), t).recs
    ensures FromEntries(h, t, es, order, z, recs)
  {
    RecordAt(h, t, items, es, order, z, 0);
    forall m | 0 <= m < |recs|
      ensures RecordOf(WritesOf(h, t)[order[z + m]], es[order[z + m]], recs[m])
    {
      RecordOfAt(h, t, items, es, order, z, m);
    }
    forall a | 0 <= a < |order| && es[order[a]].lastEpoch != 0
      ensures a >= z
    {
      assert Arranged(es, order)[a] == es[order[a]];
    }
  }

  lemma RecordIsOk(h: Log, t: nat, items: map<nat, Item>, i: nat, n: Entry, rec: Item)
    requires t > 0 && i < |WritesOf(h, t)| && EntryOk(h, t, i, n) && WellFormedWrites(WritesOf(h, t))
    requires RecordOf(WritesOf(h, t)[i], n, rec) && rec.e.word in items && WeightsKept(h, t, items)
    requires n.lastEpoch < t ==>
               if ReinsertedIn(WritesOf(h, t), rec.e.word) then ReinsertWeight(WritesOf(h, t), rec.e.word, rec.p.word)
               else rec.p.word == items[rec.e.word].p.word
    ensures RecordOk(h, t, rec)
  {
  }

  lemma RecordsSorted(h: Log, t: nat, es: seq<Entry>, order: seq<nat>, z: nat, recs: seq<Item>)
    requires EntriesOk(h, t, es) && SortedOrder(es, order) && FromEntries(h, t, es, order, z, recs)
    ensures Sorted(recs)
  {
    forall m, n | 0 <= m < n < |recs|
      ensures recs[m].e.block <= recs[n].e.block
    {
      assert !Before(es[order[z + n]], es[order[z + m]]);
    }
  }

  lemma RecordsDiffer(h: Log, t: nat, es: seq<Entry>, order: seq<nat>, z: nat, recs: seq<Item>, m: nat, n: nat)
    requires EntriesOk(h, t, es) && SortedOrder(es, order) && FromEntries(h, t, es, order, z, recs)
    requires m < n < |recs| && recs[m].e.block < t && recs[n].e.block < t
    ensures recs[m].e.word != recs[n].e.word
  {
    var i, j := order[z + m], order[z + n];
    assert i != j;
    assert EntryOk(h, t, i, es[i]) && EntryOk(h, t, j, es[j]);
    assert RecordOf(WritesOf(h, t)[i], es[i], recs[m]) && RecordOf(WritesOf(h, t)[j], es[j], recs[n]);
  }

  lemma DisplacedIsRecorded(h: Log, t: nat, es: seq<Entry>, order: seq<nat>, z: nat, recs: seq<Item>, k: nat)
    requires EntriesOk(h, t, es) && SortedOrder(es, order) && FromEntries(h, t, es, order, z, recs)
    requires WrittenAt(h, t, k) && Live(h, t - 1, k)
    ensures Recorded(recs, k, LastEpoch(h, t - 1, k))
  {
    var i := FirstWrite(WritesOf(h, t), k);
    assert EntryOk(h, t, i, es[i]);
    var a := Position(es, order, i);
    assert RecordOf(WritesOf(h, t)[order[z + (a - z)]], es[order[z + (a - z)]], recs[a - z]);
  }

  lemma EachRecordIsOk(h: Log, t: nat, items: map<nat, Item>, es: seq<Entry>, order: seq<nat>, z: nat, m: nat)
    requires Setting(h, t, items, es, order) && WeightsKept(h, t, items) && SplitAt(Arranged(es, order), z)
    requires m < |order| - z
    ensures var recs := Replay(items, Arranged(es, order), t).recs;
            |recs| == |order| - z && RecordOk(h, t, recs[m])
  {
    RecordAt(h, t, items, es, order, z, m);
    RecordOfAt(h, t, items, es, order, z, m);
    var i := order[z + m];
    EntryKey(h, t, es, i);
    assert EntryOk(h, t, i, es[i]);
    if es[i].lastEpoch < t {
      RecordWeight(h, t, items, es, order, z + m);
    }
    RecordIsOk(h, t, items, i, es[i], Replay(items, Arranged(es, order), t).recs[m]);
  }

  // Transform publishes exactly what its epoch displaced.
  lemma BlockIsOk(h: Log, t: nat, items: map<nat, Item>, es: seq<Entry>, order: seq<nat>)
    requires Setting(h, t, items, es, order) && WeightsKept(h, t, items)
    ensures BlockOk(h, t, Replay(items, Arranged(es, order), t).recs)
  {
    var recs := Replay(items, Arranged(es, order), t).recs;
    var z := Split(es, order);
    RecordsFromEntries(h, t, items, es, order, z, recs);
    RecordsSorted(h, t, es, order, z, recs);
    forall m | 0 <= m < |recs|
      ensures RecordOk(h, t, recs[m])
    {
      EachRecordIsOk(h, t, items, es, order, z, m);
    }
    forall m, n | 0 <= m < n < |recs| && recs[m].e.block < t && recs[n].e.block < t
      ensures recs[m].e.word != recs[n].e.word
    {
      RecordsDiffer(h, t, es, order, z, recs, m, n);
    }
    forall k | WrittenAt(h, t, k) && Live(h, t - 1, k)
      ensures Recorded(recs, k, LastEpoch(h, t - 1, k))
    {
      DisplacedIsRecorded(h, t, es, order, z, recs, k);
    }
  }

  // ---- Which re-insertion's weight is saved is up to the sort ----

  function Swapped(order: seq<nat>, a: nat, b: nat): seq<nat>
    requires a < |order| && b < |order|
  {
    order[a := order[b]][b := order[a]]
  }

  lemma SwapTies(es: seq<Entry>, order: seq<nat>, a: nat, b: nat)
    requires SortedOrder(es, order) && a < |order| && b < |order|
    requires es[order[a]].lastEpoch == es[order[b]].lastEpoch && es[order[a]].oldIntra == es[order[b]].oldIntra
    ensures SortedOrder(es, Swapped(order, a, b))
  {
    var other := Swapped(order, a, b);
    forall i | 0 <= i < |es|
      ensures i in other
    {
      var c := Position(es, order, i);
      assert other[if c == a then b else if c == b then a else c] == i;
    }
    forall c, d | 0 <= c < d < |other|
      ensures !Before(es[other[d]], es[other[c]])
    {
      NotBefore(es, order, c, d);
    }
  }

  // Record m is the one of the version of k that epoch t displaced.
  predicate SavedAt(recs: seq<Item>, m: nat, k: nat, l: nat) {
    m < |recs| && recs[m].e.word == k && recs[m].e.block == l
  }

  // The first write of k in the epoch takes the weight that the last entry of k before it left.
  lemma SavesLastBefore(h: Log, t: nat, items: map<nat, Item>, es: seq<Entry>, order: seq<nat>, a: nat, b: nat)
    returns (m: nat)
    requires Setting(h, t, items, es, order) && b < a < |order| && es[order[a]].lastEpoch != 0
    requires LastFor(Arranged(es, order)[..a], WritesOf(h, t)[order[a]].key) == b && es[order[b]].lastEpoch == 0
    ensures var k := WritesOf(h, t)[order[a]].key;
            var recs := Replay(items, Arranged(es, order), t).recs;
            SavedAt(recs, m, k, es[order[a]].lastEpoch) && recs[m].p.word == es[order[b]].weight
  {
    var s := Arranged(es, order);
    var k := WritesOf(h, t)[order[a]].key;
    var z := Split(es, order);
    m := a - z;
    Keys(h, t, items, es, order);
    assert Key(s[a].edge) == k && s[a] == es[order[a]];
    RecordAt(h, t, items, es, order, z, m);
    LastLeaves(items, s[..a], t, k, b);
    assert s[..a][b] == es[order[b]];
  }

  // The last entry of k replayed before its first write, when the epoch re-inserts k: a re-insertion.
  lemma LastReinsert(h: Log, t: nat, items: map<nat, Item>, es: seq<Entry>, order: seq<nat>, a: nat, i: nat, q: nat)
    returns (b: nat)
    requires Setting(h, t, items, es, order) && a < |order| && q < |order| && order[q] == i < |es|
    requires 0 < es[order[a]].lastEpoch < t && Reinserts(WritesOf(h, t), i)
    requires WritesOf(h, t)[i].key == WritesOf(h, t)[order[a]].key
    ensures q <= b < a && LastFor(Arranged(es, order)[..a], WritesOf(h, t)[i].key) == b
    ensures es[order[b]].lastEpoch == 0 == es[i].lastEpoch && es[order[b]].oldIntra == 0 == es[i].oldIntra
  {
    var k := WritesOf(h, t)[i].key;
    ReinsertComesFirst(h, t, es, order, a, i, q);
    Keys(h, t, items, es, order);
    var front := Arranged(es, order)[..a];
    assert Key(front[q].edge) == k;
    b := LastFor(front, k);
    assert front[b] == Arranged(es, order)[b];
    BeforeTheRecord(h, t, items, es, order, a, b);
    assert EntryOk(h, t, order[b], es[order[b]]) && EntryOk(h, t, i, es[i]);
  }

  lemma {:induction false} LastForIs(s: seq<Entry>, k: nat, b: nat)
    requires b < |s| && Key(s[b].edge) == k && forall c :: b < c < |s| ==> Key(s[c].edge) != k
    ensures LastFor(s, k) == b
  {
  }

  lemma SwapKeepsLast(es: seq<Entry>, order: seq<nat>, a: nat, b: nat, q: nat, k: nat)
    requires SortedOrder(es, order) && q <= b < a <= |order| && LastFor(Arranged(es, order)[..a], k) == b
    requires Key(es[order[q]].edge) == k && SortedOrder(es, Swapped(order, b, q))
    ensures LastFor(Arranged(es, Swapped(order, b, q))[..a], k) == b
  {
    var front := Arranged(es, order)[..a];
    var other := Arranged(es, Swapped(order, b, q))[..a];
    forall c | b < c < a
      ensures Key(other[c].edge) != k
    {
      assert other[c] == front[c];
    }
    LastForIs(other, k, b);
  }

  // word can be the weight saved for the version of k that epoch t displaces, if std::sort so orders.
  ghost predicate MaySave(h: Log, t: nat, items: map<nat, Item>, es: seq<Entry>, k: nat, word: nat)
    requires t > 0
  {
    exists order, m {:trigger SavesAt(h, t, items, es, k, word, order, m)} ::
        SavesAt(h, t, items, es, k, word, order, m)
  }

  ghost predicate SavesAt(h: Log, t: nat, items: map<nat, Item>, es: seq<Entry>, k: nat, word: nat, order: seq<nat>,
                          m: nat)
    requires t > 0
  {
    && SortedOrder(es, order)
    && var recs := Replay(items, Arranged(es, order), t).recs;
       SavedAt(recs, m, k, LastEpoch(h, t - 1, k)) && recs[m].p.word == word
  }

  lemma ReinsertMayBeSaved(h: Log, t: nat, items: map<nat, Item>, es: seq<Entry>, order: seq<nat>, i: nat)
    requires Setting(h, t, items, es, order) && i < |WritesOf(h, t)| && Reinserts(WritesOf(h, t), i)
    requires Live(h, t - 1, WritesOf(h, t)[i].key)
    ensures MaySave(h, t, items, es, WritesOf(h, t)[i].key, WritesOf(h, t)[i].weight)
  {
    var k := WritesOf(h, t)[i].key;
    var first := FirstWrite(WritesOf(h, t), k);
    assert EntryOk(h, t, first, es[first]) && EntryOk(h, t, i, es[i]);
    var a := Position(es, order, first);
    var q := Position(es, order, i);
    var b := LastReinsert(h, t, items, es, order, a, i, q);
    SwapTies(es, order, b, q);
    EntryKey(h, t, es, i);
    SwapKeepsLast(es, order, a, b, q, k);
    var other := Swapped(order, b, q);
    var m := SavesLastBefore(h, t, items, es, other, a, b);
    assert SavesAt(h, t, items, es, k, WritesOf(h, t)[i].weight, other, m);
  }

  lemma SavedIsReinsert(h: Log, t: nat, items: map<nat, Item>, es: seq<Entry>, order: seq<nat>, k: nat, word: nat,
                        m: nat)
    requires Setting(h, t, items, es, order) && ReinsertedIn(WritesOf(h, t), k) && Live(h, t - 1, k)
    requires SavesAt(h, t, items, es, k, word, order, m)
    ensures ReinsertWeight(WritesOf(h, t), k, word)
  {
    var z := Split(es, order);
    RecordAt(h, t, items, es, order, z, m);
    RecordOfAt(h, t, items, es, order, z, m);
    EntryKey(h, t, es, order[z + m]);
    RecordWeight(h, t, items, es, order, z + m);
  }

  // When an epoch re-inserts an edge alive before it, what it may save as the weight of the version it
  // displaces is exactly what its re-insertions wrote: the comparator leaves their order to std::sort.
  lemma SavesExactlyReinserts(h: Log, t: nat, items: map<nat, Item>, es: seq<Entry>, order: seq<nat>, k: nat, word: nat)
    requires Setting(h, t, items, es, order) && ReinsertedIn(WritesOf(h, t), k) && Live(h, t - 1, k)
    ensures MaySave(h, t, items, es, k, word) <==> ReinsertWeight(WritesOf(h, t), k, word)
  {
    if MaySave(h, t, items, es, k, word) {
      var other, m :| SavesAt(h, t, items, es, k, word, other, m);
      SavedIsReinsert(h, t, items, es, other, k, word, m);
    }
    if ReinsertWeight(WritesOf(h, t), k, word) {
      var i: nat :| i < |WritesOf(h, t)| && WritesOf(h, t)[i].key == k && Reinserts(WritesOf(h, t), i) &&
          WritesOf(h, t)[i].weight == word;
      ReinsertMayBeSaved(h, t, items, es, order, i);
    }
  }

  // ---- So is which of the writes sorted last stays ----

  ghost predicate StaysAt(items: map<nat, Item>, es: seq<Entry>, t: nat, k: nat, weight: nat, order: seq<nat>)
    requires k in items
  {
    SortedOrder(es, order) && Replay(items, Arranged(es, order), t).items[k].p.word == weight
  }

  // weight can be the head's weight after epoch t, if std::sort so orders.
  ghost predicate MayStay(items: map<nat, Item>, es: seq<Entry>, t: nat, k: nat, weight: nat)
    requires k in items
  {
    exists order {:trigger StaysAt(items, es, t, k, weight, order)} :: StaysAt(items, es, t, k, weight, order)
  }

  lemma ArrangedWhole(es: seq<Entry>, order: seq<nat>)
    requires SortedOrder(es, order)
    ensures Arranged(es, order)[..|order|] == Arranged(es, order)
  {
  }

  lemma SwapMovesLast(es: seq<Entry>, order: seq<nat>, b: nat, q: nat, k: nat)
    requires SortedOrder(es, order) && q <= b < |order| && LastFor(Arranged(es, order), k) == b
    requires Key(es[order[q]].edge) == k && SortedOrder(es, Swapped(order, b, q))
    ensures LastFor(Arranged(es, Swapped(order, b, q)), k) == b
  {
    ArrangedWhole(es, order);
    ArrangedWhole(es, Swapped(order, b, q));
    SwapKeepsLast(es, order, |order|, b, q, k);
  }

  lemma LastMayStay(h: Log, t: nat, items: map<nat, Item>, es: seq<Entry>, order: seq<nat>, k: nat, i: nat)
    requires Setting(h, t, items, es, order) && k in items && SortsLast(h, t, k, i)
    ensures MayStay(items, es, t, k, Leaves(WritesOf(h, t)[i]))
  {
    var ws := WritesOf(h, t);
    var last := LastEntry(h, t, items, es, order, k);
    var b := LastFor(Arranged(es, order), k);
    var q := Position(es, order, i);
    NothingAfter(h, t, es, order, b, k, i);
    ComparatorIs(h, t, es, i, last);
    SwapTies(es, order, b, q);
    EntryKey(h, t, es, i);
    SwapMovesLast(es, order, b, q, k);
    var other := Swapped(order, b, q);
    LastLeaves(items, Arranged(es, other), t, k, b);
    assert Arranged(es, other)[b] == es[i];
    assert EntryOk(h, t, i, es[i]);
    assert StaysAt(items, es, t, k, Leaves(ws[i]), other);
  }

  // What an epoch may leave as the head's weight is exactly what the writes sorted last leave: between
  // them the comparator leaves the choice to std::sort.
  lemma StaysExactlyLast(h: Log, t: nat, items: map<nat, Item>, es: seq<Entry>, order: seq<nat>, k: nat, weight: nat)
    requires Setting(h, t, items, es, order) && k in items && WrittenAt(h, t, k)
    ensures MayStay(items, es, t, k, weight) <==> MayLeave(h, t, k, weight)
  {
    if MayStay(items, es, t, k, weight) {
      var other :| StaysAt(items, es, t, k, weight, other);
      HeadWeight(h, t, items, es, other, k);
    }
    if MayLeave(h, t, k, weight) {
      var i: nat :| SortsLast(h, t, k, i) && Leaves(WritesOf(h, t)[i]) == weight;
      LastMayStay(h, t, items, es, order, k, i);
    }
  }

  // ---- The edge count ----

  function NetOf(s: seq<Entry>): int {
    if s == [] then 0 else NetOf(s[..|s| - 1]) + if IsDelete(s[|s| - 1].edge) then -1 else 1
  }

  lemma {:induction false} ReplayNet(items: map<nat, Item>, s: seq<Entry>, t: nat)
    requires forall a :: 0 <= a < |s| ==> Key(s[a].edge) in items
    ensures Replay(items, s, t).net == NetOf(s)
  {
    if s != [] {
      ReplayNet(items, s[..|s| - 1], t);
    }
  }

  // Sum over the entries is the number of insertions minus the number of deletions, in any order.
  lemma {:induction false} NetAnyOrder(s: seq<Entry>, u: seq<Entry>)
    requires multiset(s) == multiset(u)
    ensures NetOf(s) == NetOf(u)
  {
    if s == [] {
      assert |multiset(u)| == 0;
    } else {
      var x := s[|s| - 1];
      assert x in multiset(u);
      var i :| 0 <= i < |u| && u[i] == x;
      var v := u[..i] + u[i + 1..];
      assert s == s[..|s| - 1] + [x];
      assert u == u[..i] + [x] + u[i + 1..];
      assert multiset(s[..|s| - 1]) == multiset(s) - multiset{x};
      assert multiset(v) == multiset(u) - multiset{x};
      NetAnyOrder(s[..|s| - 1], v);
      NetRemove(u, i);
    }
  }

  lemma {:induction false} NetRemove(u: seq<Entry>, i: nat)
    requires i < |u|
    ensures NetOf(u) == NetOf(u[..i] + u[i + 1..]) + if IsDelete(u[i].edge) then -1 else 1
  {
    var v := u[..i] + u[i + 1..];
    if i == |u| - 1 {
      assert v == u[..|u| - 1];
    } else {
      var front := u[..|u| - 1];
      NetRemove(front, i);
      assert v[..|v| - 1] == front[..i] + front[i + 1..];
    }
  }

  ghost predicate Permutes(order: seq<nat>, n: nat) {
    && |order| == n && (forall a :: 0 <= a < |order| ==> order[a] < n)
    && (forall a, b :: 0 <= a < b < |order| ==> order[a] != order[b])
    && (forall i :: 0 <= i < n ==> i in order)
  }

  lemma DropKeepsPermutation(n: nat, order: seq<nat>, a: nat)
    requires Permutes(order, n + 1) && a < |order| && order[a] == n
    ensures Permutes(order[..a] + order[a + 1..], n)
  {
    var rest := order[..a] + order[a + 1..];
    forall i | 0 <= i < n
      ensures i in rest
    {
      assert i in order;
      var b :| 0 <= b < |order| && order[b] == i;
      assert rest[if b < a then b else b - 1] == i;
    }
  }

  lemma ArrangedRest(es: seq<Entry>, n: nat, order: seq<nat>, a: nat)
    requires Permutes(order, n + 1) && |es| == n + 1 && a < |order|
    requires Permutes(order[..a] + order[a + 1..], n)
    ensures var t := Arranged(es[..n], order[..a] + order[a + 1..]);
            |t| == n && forall b :: 0 <= b < n ==> t[b] == Arranged(es, order)[if b < a then b else b + 1]
  {
  }

  lemma {:induction false} ArrangedPermutes(es: seq<Entry>, order: seq<nat>)
    requires Permutes(order, |es|)
    ensures multiset(Arranged(es, order)) == multiset(es)
  {
    if es != [] {
      var n := |es| - 1;
      assert n in order;
      var a :| 0 <= a < |order| && order[a] == n;
      DropKeepsPermutation(n, order, a);
      ArrangedRest(es, n, order, a);
      var rest := order[..a] + order[a + 1..];
      ArrangedPermutes(es[..n], rest);
      SpliceMultiset(Arranged(es, order), Arranged(es[..n], rest), es, a);
    }
  }

  lemma SpliceMultiset(s: seq<Entry>, t: seq<Entry>, es: seq<Entry>, a: nat)
    requires es != [] && a < |s| == |es| && |t| == |es| - 1 && s[a] == es[|es| - 1]
    requires forall b :: 0 <= b < |t| ==> t[b] == s[if b < a then b else b + 1]
    requires multiset(t) == multiset(es[..|es| - 1])
    ensures multiset(s) == multiset(es)
  {
    assert t == s[..a] + s[a + 1..];
    assert s == s[..a] + [s[a]] + s[a + 1..];
    assert es == es[..|es| - 1] + [es[|es| - 1]];
  }

  lemma {:induction false} NetMatches(ws: seq<Write>, es: seq<Entry>)
    requires |ws| == |es| && forall i :: 0 <= i < |es| ==> (IsDelete(es[i].edge) <==> ws[i].del)
    ensures NetOf(es) == Net(ws)
  {
    if ws != [] {
      NetMatches(ws[..|ws| - 1], es[..|es| - 1]);
    }
  }

  // The block's edge_num_ is the epoch's insertions minus its deletions.
  lemma BlockNet(h: Log, t: nat, items: map<nat, Item>, es: seq<Entry>, order: seq<nat>)
    requires Setting(h, t, items, es, order)
    ensures Replay(items, Arranged(es, order), t).net == Net(WritesOf(h, t))
  {
    Keys(h, t, items, es, order);
    ReplayNet(items, Arranged(es, order), t);
    ArrangedPermutes(es, order);
    NetAnyOrder(Arranged(es, order), es);
    forall i | 0 <= i < |es|
      ensures IsDelete(es[i].edge) <==> WritesOf(h, t)[i].del
    {
      EntryKey(h, t, es, i);
    }
    NetMatches(WritesOf(h, t), es);
  }
}
