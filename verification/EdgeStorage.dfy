// Where one vertex keeps its edges: the primary array, the 64-slot buffer and the hash index
// (the fields start, tmp_item, capacity, num, tmp_ev, merge_times, edges_and_versions and M of
// class VertexEdges in data-structure/EdgeBlock/VertexEdges.h:450-478).
module EdgeStorage {
  import opened Basics
  import opened VertexState
  import opened VertexModel
  import opened MergeSpec
  import opened HashSet

  // What an item_e / item_p pointer pair designates.
  datatype Where = InPa(i: nat) | InBuf(j: nat)

  // An array holds the items s: edge halves first, property halves `half` slots further on.
  ghost predicate Holds(a: array<Slot>, half: nat, s: seq<Item>)
    reads a
  {
    |s| <= half && half + |s| <= a.Length && forall i :: 0 <= i < |s| ==> s[i].e == a[i] && s[i].p == a[half + i]
  }

  // The first n items are in place.
  ghost predicate HoldsTo(a: array<Slot>, half: nat, s: seq<Item>, n: int)
    reads a
  {
    |s| <= half && half + |s| <= a.Length && n <= |s| &&
    forall i :: 0 <= i < n ==> s[i].e == a[i] && s[i].p == a[half + i]
  }

  // The items from n on are in place.
  ghost predicate Written(a: array<Slot>, half: nat, s: seq<Item>, n: int)
    reads a
  {
    |s| <= half && half + |s| <= a.Length && 0 <= n <= |s| &&
    forall i :: n <= i < |s| ==> s[i].e == a[i] && s[i].p == a[half + i]
  }

  ghost predicate Locates(pa: seq<Item>, buf: seq<Item>, k: nat, w: Where) {
    match w
    case InPa(i) => i < |pa| && KeyOf(pa[i]) == k
    case InBuf(j) => j < |buf| && KeyOf(buf[j]) == k
  }

  function Fetch(pa: seq<Item>, buf: seq<Item>, w: Where): Item
    requires if w.InPa? then w.i < |pa| else w.j < |buf|
  {
    if w.InPa? then pa[w.i] else buf[w.j]
  }

  // Key k is held at its location.
  ghost predicate Held(pa: seq<Item>, buf: seq<Item>, items: map<nat, Item>, loc: map<nat, Where>, k: nat) {
    k in loc ==> k in items && Locates(pa, buf, k, loc[k]) && items[k] == Fetch(pa, buf, loc[k])
  }

  // The item at a location is the one its key is located at.
  ghost predicate Placed(s: seq<Item>, loc: map<nat, Where>, i: nat, w: Where) {
    i < |s| ==> KeyOf(s[i]) in loc && loc[KeyOf(s[i])] == w
  }

  // Primary array and buffer together hold each key of `items` once, at its location.
  ghost predicate Indexed(pa: seq<Item>, buf: seq<Item>, items: map<nat, Item>, loc: map<nat, Where>) {
    && items.Keys == loc.Keys && SortedKeys(pa)
    && (forall k {:trigger Held(pa, buf, items, loc, k)} :: Held(pa, buf, items, loc, k))
    && (forall i {:trigger Placed(pa, loc, i, InPa(i))} :: Placed(pa, loc, i, InPa(i)))
    && (forall j {:trigger Placed(buf, loc, j, InBuf(j))} :: Placed(buf, loc, j, InBuf(j)))
  }

  // ---- The index under each change ----

  lemma IndexedAppend(pa: seq<Item>, buf: seq<Item>, items: map<nat, Item>, loc: map<nat, Where>, it: Item)
    requires Indexed(pa, buf, items, loc) && KeyOf(it) !in items
    ensures Indexed(pa, buf + [it], items[KeyOf(it) := it], loc[KeyOf(it) := InBuf(|buf|)])
  {
    var k, after, places := KeyOf(it), items[KeyOf(it) := it], loc[KeyOf(it) := InBuf(|buf|)];
    forall x {:trigger Held(pa, buf + [it], after, places, x)}
      ensures Held(pa, buf + [it], after, places, x)
    {
      assert Held(pa, buf, items, loc, x);
    }
    forall i {:trigger Placed(pa, places, i, InPa(i))}
      ensures Placed(pa, places, i, InPa(i))
    {
      assert Placed(pa, loc, i, InPa(i));
    }
    forall j {:trigger Placed(buf + [it], places, j, InBuf(j))}
      ensures Placed(buf + [it], places, j, InBuf(j))
    {
      assert Placed(buf, loc, j, InBuf(j));
    }
  }

  lemma IndexedSetPa(pa: seq<Item>, buf: seq<Item>, items: map<nat, Item>, loc: map<nat, Where>, k: nat, it: Item)
    requires Indexed(pa, buf, items, loc) && k in loc && loc[k].InPa? && KeyOf(it) == k
    ensures loc[k].i < |pa| && Indexed(pa[loc[k].i := it], buf, items[k := it], loc)
  {
    assert Held(pa, buf, items, loc, k);
    var us, after := pa[loc[k].i := it], items[k := it];
    forall x {:trigger Held(us, buf, after, loc, x)}
      ensures Held(us, buf, after, loc, x)
    {
      assert Held(pa, buf, items, loc, x);
    }
    forall i {:trigger Placed(us, loc, i, InPa(i))}
      ensures Placed(us, loc, i, InPa(i))
    {
      assert Placed(pa, loc, i, InPa(i));
    }
  }

  lemma IndexedSetBuf(pa: seq<Item>, buf: seq<Item>, items: map<nat, Item>, loc: map<nat, Where>, k: nat, it: Item)
    requires Indexed(pa, buf, items, loc) && k in loc && loc[k].InBuf? && KeyOf(it) == k
    ensures loc[k].j < |buf| && Indexed(pa, buf[loc[k].j := it], items[k := it], loc)
  {
    assert Held(pa, buf, items, loc, k);
    var us, after := buf[loc[k].j := it], items[k := it];
    forall x {:trigger Held(pa, us, after, loc, x)}
      ensures Held(pa, us, after, loc, x)
    {
      assert Held(pa, buf, items, loc, x);
    }
    forall j {:trigger Placed(us, loc, j, InBuf(j))}
      ensures Placed(us, loc, j, InBuf(j))
    {
      assert Placed(buf, loc, j, InBuf(j));
    }
  }

  // The positions of the first n items of a merged primary array.
  function PlacesTo(pa: seq<Item>, n: nat): map<nat, Where>
    requires n <= |pa|
  {
    if n == 0 then map[] else PlacesTo(pa, n - 1)[KeyOf(pa[n - 1]) := InPa(n - 1)]
  }

  function Places(pa: seq<Item>): map<nat, Where> {
    PlacesTo(pa, |pa|)
  }

  lemma {:induction false} PlacesLocate(pa: seq<Item>, n: nat, k: nat)
    requires n <= |pa|
    ensures k in PlacesTo(pa, n) ==>
              PlacesTo(pa, n)[k].InPa? && PlacesTo(pa, n)[k].i < n && KeyOf(pa[PlacesTo(pa, n)[k].i]) == k
  {
    if n > 0 {
      PlacesLocate(pa, n - 1, k);
    }
  }

  lemma {:induction false} PlacesHave(pa: seq<Item>, n: nat, i: nat)
    requires i < n <= |pa| && SortedKeys(pa)
    ensures KeyOf(pa[i]) in PlacesTo(pa, n) && PlacesTo(pa, n)[KeyOf(pa[i])] == InPa(i)
  {
    if i < n - 1 {
      PlacesHave(pa, n - 1, i);
    }
  }

  // A sort of the buffer by key; the keys are distinct, so there is only one.
  ghost predicate BufferOrder(buf: seq<Item>, order: seq<nat>) {
    && |order| == |buf|
    && (forall a :: 0 <= a < |order| ==> order[a] < |buf|)
    && (forall i :: 0 <= i < |buf| ==> i in order)
    && (forall a, b :: 0 <= a < b < |order| ==> KeyOf(buf[order[a]]) < KeyOf(buf[order[b]]))
  }

  function Ordered(buf: seq<Item>, order: seq<nat>): (r: seq<Item>)
    requires forall a :: 0 <= a < |order| ==> order[a] < |buf|
    ensures |r| == |order| && forall a :: 0 <= a < |r| ==> r[a] == buf[order[a]]
  {
    seq(|order|, a requires 0 <= a < |order| => buf[order[a]])
  }

  // The keys the merge drops: deleted long ago and already in the primary array.
  function GoneTo(pa: seq<Item>, n: nat, oldest: nat): set<nat>
    requires n <= |pa|
  {
    if n == 0 then {}
    else if Droppable(pa[n - 1], oldest) then GoneTo(pa, n - 1, oldest) + {KeyOf(pa[n - 1])}
    else GoneTo(pa, n - 1, oldest)
  }

  lemma {:induction false} GoneMembers(pa: seq<Item>, n: nat, oldest: nat, k: nat)
    requires n <= |pa|
    ensures k in GoneTo(pa, n, oldest) <==> exists i :: 0 <= i < n && Droppable(pa[i], oldest) && KeyOf(pa[i]) == k
  {
    if n > 0 {
      GoneMembers(pa, n - 1, oldest, k);
    }
  }

  function Gone(pa: seq<Item>, oldest: nat): set<nat> {
    GoneTo(pa, |pa|, oldest)
  }

  lemma MergedKeys(pa: seq<Item>, buf: seq<Item>, items: map<nat, Item>, loc: map<nat, Where>, oldest: nat,
                   order: seq<nat>)
    requires Indexed(pa, buf, items, loc) && BufferOrder(buf, order)
    ensures SortedKeys(Merge(Keep(pa, oldest), Ordered(buf, order)))
  {
    var a, b := Keep(pa, oldest), Ordered(buf, order);
    KeepSorted(pa, |pa|, oldest);
    forall i, j | 0 <= i < |a| && 0 <= j < |b|
      ensures KeyOf(a[i]) != KeyOf(b[j])
    {
      KeepMembers(pa, |pa|, oldest, a[i]);
      var p :| 0 <= p < |pa| && pa[p] == a[i];
      assert Placed(pa, loc, p, InPa(p)) && Placed(buf, loc, order[j], InBuf(order[j]));
    }
    MergeSorted(a, |a|, b, |b|);
  }

  lemma MergedHolds(pa: seq<Item>, buf: seq<Item>, items: map<nat, Item>, loc: map<nat, Where>, oldest: nat,
                    order: seq<nat>, k: nat)
    requires Indexed(pa, buf, items, loc) && BufferOrder(buf, order) && k in items && k !in Gone(pa, oldest)
    ensures items[k] in Merge(Keep(pa, oldest), Ordered(buf, order)) && KeyOf(items[k]) == k
  {
    var it := items[k];
    assert Held(pa, buf, items, loc, k);
    GoneMembers(pa, |pa|, oldest, k);
    KeepMembers(pa, |pa|, oldest, it);
    MergeMembers(Keep(pa, oldest), |Keep(pa, oldest)|, Ordered(buf, order), |buf|, it);
    if loc[k].InBuf? {
      assert loc[k].j in order;
      var a :| 0 <= a < |order| && order[a] == loc[k].j;
      assert Ordered(buf, order)[a] == it;
    } else {
      assert pa[loc[k].i] == it;
    }
  }

  lemma MergedComesFrom(pa: seq<Item>, buf: seq<Item>, items: map<nat, Item>, loc: map<nat, Where>, oldest: nat,
                        order: seq<nat>, it: Item)
    requires Indexed(pa, buf, items, loc) && BufferOrder(buf, order)
    requires it in Merge(Keep(pa, oldest), Ordered(buf, order))
    ensures KeyOf(it) in items && KeyOf(it) !in Gone(pa, oldest) && items[KeyOf(it)] == it
  {
    KeepMembers(pa, |pa|, oldest, it);
    GoneMembers(pa, |pa|, oldest, KeyOf(it));
    MergeMembers(Keep(pa, oldest), |Keep(pa, oldest)|, Ordered(buf, order), |buf|, it);
    if it in Keep(pa, oldest) {
      var i :| 0 <= i < |pa| && pa[i] == it;
      forall p | 0 <= p < |pa| && KeyOf(pa[p]) == KeyOf(it)
        ensures p == i
      {
        assert Placed(pa, loc, p, InPa(p)) && Placed(pa, loc, i, InPa(i));
      }
      assert Placed(pa, loc, i, InPa(i));
    } else {
      var a :| 0 <= a < |order| && Ordered(buf, order)[a] == it;
      assert Placed(buf, loc, order[a], InBuf(order[a]));
      forall p | 0 <= p < |pa|
        ensures KeyOf(pa[p]) != KeyOf(it)
      {
        assert Placed(pa, loc, p, InPa(p));
      }
    }
    assert Held(pa, buf, items, loc, KeyOf(it));
  }

  lemma MergedIsHeld(pa: seq<Item>, buf: seq<Item>, items: map<nat, Item>, loc: map<nat, Where>, oldest: nat,
                     order: seq<nat>, k: nat)
    requires Indexed(pa, buf, items, loc) && BufferOrder(buf, order) && k in items && k !in Gone(pa, oldest)
    requires SortedKeys(Merge(Keep(pa, oldest), Ordered(buf, order)))
    ensures var r := Merge(Keep(pa, oldest), Ordered(buf, order));
            k in Places(r) && Held(r, [], items - Gone(pa, oldest), Places(r), k)
  {
    var r := Merge(Keep(pa, oldest), Ordered(buf, order));
    MergedHolds(pa, buf, items, loc, oldest, order, k);
    var i :| 0 <= i < |r| && r[i] == items[k];
    PlacesHave(r, |r|, i);
  }

  lemma MergedIsKept(pa: seq<Item>, buf: seq<Item>, items: map<nat, Item>, loc: map<nat, Where>, oldest: nat,
                     order: seq<nat>, k: nat)
    requires Indexed(pa, buf, items, loc) && BufferOrder(buf, order)
    requires k in Places(Merge(Keep(pa, oldest), Ordered(buf, order)))
    ensures k in items - Gone(pa, oldest)
  {
    var r := Merge(Keep(pa, oldest), Ordered(buf, order));
    PlacesLocate(r, |r|, k);
    MergedComesFrom(pa, buf, items, loc, oldest, order, r[Places(r)[k].i]);
  }

  lemma SortedIsPlaced(r: seq<Item>)
    requires SortedKeys(r)
    ensures forall i: nat {:trigger Placed(r, Places(r), i, InPa(i))} :: Placed(r, Places(r), i, InPa(i))
  {
    forall i: nat {:trigger Placed(r, Places(r), i, InPa(i))}
      ensures Placed(r, Places(r), i, InPa(i))
    {
      if i < |r| {
        PlacesHave(r, |r|, i);
      }
    }
  }

  // After the merge every surviving item sits in the primary array and the buffer is empty.
  lemma IndexedMerge(pa: seq<Item>, buf: seq<Item>, items: map<nat, Item>, loc: map<nat, Where>, oldest: nat,
                     order: seq<nat>)
    requires Indexed(pa, buf, items, loc) && BufferOrder(buf, order)
    ensures var r := Merge(Keep(pa, oldest), Ordered(buf, order));
            SortedKeys(r) && Indexed(r, [], items - Gone(pa, oldest), Places(r))
  {
    var r := Merge(Keep(pa, oldest), Ordered(buf, order));
    MergedKeys(pa, buf, items, loc, oldest, order);
    SortedIsPlaced(r);
    var after, places := items - Gone(pa, oldest), Places(r);
    forall k
      ensures k in after <==> k in places
      ensures Held(r, [], after, places, k)
    {
      if k in after {
        MergedIsHeld(pa, buf, items, loc, oldest, order, k);
      }
      if k in places {
        MergedIsKept(pa, buf, items, loc, oldest, order, k);
      }
    }
  }

  // What the merge drops: the edges of the primary array deleted before `oldest`, and nothing else.
  ghost predicate AfterMerge(items: map<nat, Item>, loc: map<nat, Where>, oldest: nat, after: map<nat, Item>) {
    && after.Keys <= items.Keys && loc.Keys == items.Keys
    && forall k {:trigger k in items} :: k in items ==>
         && (k in after <==> !(loc[k].InPa? && Droppable(items[k], oldest)))
         && (k in after ==> after[k] == items[k])
  }

  lemma MergeDropsExactly(pa: seq<Item>, buf: seq<Item>, items: map<nat, Item>, loc: map<nat, Where>, oldest: nat)
    requires Indexed(pa, buf, items, loc)
    ensures AfterMerge(items, loc, oldest, items - Gone(pa, oldest))
  {
    forall k | k in items
      ensures k in Gone(pa, oldest) <==> loc[k].InPa? && Droppable(items[k], oldest)
    {
      assert Held(pa, buf, items, loc, k);
      GoneMembers(pa, |pa|, oldest, k);
      if k in Gone(pa, oldest) {
        var i :| 0 <= i < |pa| && Droppable(pa[i], oldest) && KeyOf(pa[i]) == k;
        assert Placed(pa, loc, i, InPa(i));
      }
    }
  }

  // ---- The search of get_edge_index ----

  // The binary search starts with r = edges_and_versions, one past the last edge, so a key above
  // every stored one is also compared with whatever that slot happens to hold.
  ghost predicate PastEndHit(pa: seq<Item>, pastEnd: Slot, key: nat) {
    pa != [] && KeyOf(pa[|pa| - 1]) < key && Key(pastEnd.word) == key
  }

  // The keys left in the index after the first i items have been looked at.
  lemma LeftInIndex(keys: set<nat>, pa: seq<Item>, oldest: nat, i: nat)
    requires i < |pa|
    ensures keys - GoneTo(pa, i + 1, oldest) ==
            if Droppable(pa[i], oldest) then keys - GoneTo(pa, i, oldest) - {KeyOf(pa[i])}
            else keys - GoneTo(pa, i, oldest)
  {
  }

  // Both halves of the storage, the items they hold by key, and where.
  datatype Layout = Layout(pa: seq<Item>, buf: seq<Item>, items: map<nat, Item>, loc: map<nat, Where>)

  class EdgeStore {
    var start: array<Slot>
    const tmpItem: array<Slot>
    var capacity: nat
    var num: nat
    var tmpEv: nat
    var mergeTimes: nat
    var edgesAndVersions: nat
    const M: HashTable2
    ghost var view: Layout

    ghost predicate Shape()
      reads this, start, tmpItem
    {
      start.Length == 2 * capacity && tmpItem.Length == 128 && edgesAndVersions <= capacity && tmpEv <= 64
    }

    // The ghost sequences are what the arrays hold.
    ghost predicate Stored()
      reads this, start, tmpItem
    {
      && Shape() && start != tmpItem
      && |view.pa| == edgesAndVersions && Holds(start, capacity, view.pa)
      && |view.buf| == tmpEv && Holds(tmpItem, 64, view.buf)
    }

    ghost predicate Valid()
      reads this, start, tmpItem, M, M.hashtable
    {
      && Stored() && M.Valid()
      && num == edgesAndVersions + tmpEv && num <= TMPVB_MASK
      && Indexed(view.pa, view.buf, view.items, view.loc)
      && M.contents == view.items.Keys
      && (forall k :: k in view.items ==> k < DELETION_MASK)
    }

    // build(0, nullptr, nullptr): an empty adjacency.
    constructor ()
      ensures Valid() && fresh(start) && fresh(tmpItem) && fresh(M) && fresh(M.hashtable)
      ensures view.items == map[] && view.loc == map[] && tmpEv == 0 && mergeTimes == 0
      ensures capacity == edgesAndVersions == 0
    {
      start := new Slot[0];
      tmpItem := new Slot[128](_ => Slot(0, 0, 0));
      capacity, num, tmpEv, mergeTimes, edgesAndVersions := 0, 0, 0, 0, 0;
      M := new HashTable2();
      view := Layout([], [], map[], map[]);
    }

    // Reading through an item_e / item_p pair.
    method Get(w: Where) returns (it: Item)
      requires Valid() && (if w.InPa? then w.i < edgesAndVersions else w.j < tmpEv)
      ensures it == Fetch(view.pa, view.buf, w)
    {
      match w
      case InPa(i) => it := Item(start[i], start[capacity + i]);
      case InBuf(j) => it := Item(tmpItem[j], tmpItem[64 + j]);
    }

    method WriteSlots(w: Where, it: Item)
      requires Stored() && (if w.InPa? then w.i < edgesAndVersions else w.j < tmpEv)
      modifies this`view, start, tmpItem
      ensures Stored()
      ensures view == if w.InPa? then old(view).(pa := old(view.pa)[w.i := it])
                      else old(view).(buf := old(view.buf)[w.j := it])
    {
      match w {
        case InPa(i) =>
          start[i], start[capacity + i] := it.e, it.p;
          view := view.(pa := view.pa[i := it]);
        case InBuf(j) =>
          tmpItem[j], tmpItem[64 + j] := it.e, it.p;
          view := view.(buf := view.buf[j := it]);
      }
    }

    // Writing both halves of an item through the pair; its key stays.
    method Set(ghost k: nat, w: Where, it: Item)
      requires Valid() && k in view.loc && view.loc[k] == w && KeyOf(it) == k
      modifies this`view, start, tmpItem
      ensures Valid() && view.items == old(view.items)[k := it] && view.loc == old(view.loc)
    {
      assert Held(view.pa, view.buf, view.items, view.loc, k);
      if w.InPa? {
        IndexedSetPa(view.pa, view.buf, view.items, view.loc, k, it);
      } else {
        IndexedSetBuf(view.pa, view.buf, view.items, view.loc, k, it);
      }
      WriteSlots(w, it);
      view := view.(items := view.items[k := it]);
    }

    method PushSlots(k: nat, weight: nat) returns (stale: Slot)
      requires Stored() && tmpEv < 64
      modifies this`tmpEv, this`view, tmpItem
      ensures Stored() && tmpEv == old(tmpEv) + 1
      ensures view == old(view).(buf := old(view.buf) + [NewItem(k, weight, stale)])
    {
      stale := tmpItem[64 + tmpEv];
      tmpItem[64 + tmpEv] := stale.(word := weight);
      tmpItem[tmpEv] := Slot(k, 0, 0);
      tmpEv := tmpEv + 1;
      view := view.(buf := view.buf + [NewItem(k, weight, stale)]);
    }

    // A new edge takes the next buffer slot; the property half keeps its stale block and index.
    method Append(k: nat, weight: nat) returns (w: Where, stale: Slot)
      requires Valid() && tmpEv < 64 && num < TMPVB_MASK && k < DELETION_MASK && k !in view.items
      modifies this`num, this`tmpEv, this`view, tmpItem, M, M.hashtable
      ensures Valid() && (M.hashtable == old(M.hashtable) || fresh(M.hashtable))
      ensures w == InBuf(old(tmpEv)) && tmpEv == old(tmpEv) + 1
      ensures view.items == old(view.items)[k := NewItem(k, weight, stale)] && view.loc == old(view.loc)[k := w]
      ensures view.pa == old(view.pa)
    {
      M.SetDestHashTableVal(k);
      w := InBuf(tmpEv);
      stale := PushSlots(k, weight);
      IndexedAppend(view.pa, old(view.buf), view.items, view.loc, NewItem(k, weight, stale));
      num := num + 1;
      view := view.(items := view.items[k := NewItem(k, weight, stale)], loc := view.loc[k := w]);
    }

    // get_edge_index2: the binary search on a key that is in the primary array.
    method GetEdgeIndex2(key: nat) returns (w: Where)
      requires Valid() && key in view.loc && view.loc[key].InPa?
      ensures w == view.loc[key]
    {
      var l, r: int := 0, edgesAndVersions;
      ghost var p := view.loc[key].i;
      assert Held(view.pa, view.buf, view.items, view.loc, key);
      while true
        invariant 0 <= l <= p <= r <= edgesAndVersions
        decreases r - l
      {
        var m := (l + r) / 2;
        assert Held(view.pa, view.buf, view.items, view.loc, key);
        assert m < edgesAndVersions;
        assert KeyOf(view.pa[m]) == Key(start[m].word);
        var k := Key(start[m].word);
        if k > key {
          r := m - 1;
        } else if k < key {
          l := m + 1;
        } else {
          w := InPa(m);
          return;
        }
      }
    }

    // What get_edge_index compares a key above all others with.
    ghost function PastEnd(): Slot
      reads this, start
    {
      if edgesAndVersions < start.Length then start[edgesAndVersions] else Slot(0, 0, 0)
    }

    // get_edge_index: binary search, then the buffer. It finds exactly what is stored if and only
    // if the slot past the last edge does not happen to hold the key.
    method GetEdgeIndex(key: nat) returns (found: bool, w: Where)
      requires Valid()
      ensures PastEndHit(view.pa, PastEnd(), key) ==> found && w == InPa(edgesAndVersions)
      ensures ((found <==> key in view.loc) && (found ==> w == view.loc[key])) <==> !PastEndHit(view.pa, PastEnd(), key)
    {
      var m := SearchPrimary(key);
      assert Held(view.pa, view.buf, view.items, view.loc, key);
      if m >= 0 {
        assert Placed(view.pa, view.loc, m, InPa(m));
        return true, InPa(m);
      }
      var i := 0;
      while i < tmpEv
        invariant 0 <= i <= tmpEv
        invariant forall j :: 0 <= j < i ==> KeyOf(view.buf[j]) != key
      {
        assert KeyOf(view.buf[i]) == Key(tmpItem[i].word);
        if Key(tmpItem[i].word) == key {
          assert Placed(view.buf, view.loc, i, InBuf(i));
          return true, InBuf(i);
        }
        i := i + 1;
      }
      return false, InPa(0);
    }

    // The loop of get_edge_index: an index whose key matches, possibly the one past the end.
    method SearchPrimary(key: nat) returns (m: int)
      requires Stored() && SortedKeys(view.pa)
      ensures -1 <= m <= edgesAndVersions
      ensures 0 <= m < edgesAndVersions ==> KeyOf(view.pa[m]) == key
      ensures m == edgesAndVersions > 0 <==> PastEndHit(view.pa, PastEnd(), key)
      ensures m == -1 ==> forall i :: 0 <= i < |view.pa| ==> KeyOf(view.pa[i]) != key
      ensures edgesAndVersions == 0 ==> m == -1
    {
      var l: int, r: int := 0, edgesAndVersions;
      if r != 0 {
        ghost var beyond := Key(PastEnd().word);
        while l <= r
          invariant 0 <= l <= edgesAndVersions + 1 && -1 <= r <= edgesAndVersions
          invariant forall i :: 0 <= i < l && i < |view.pa| ==> KeyOf(view.pa[i]) < key
          invariant forall i :: r < i < |view.pa| ==> KeyOf(view.pa[i]) > key
          invariant l == edgesAndVersions + 1 ==> beyond < key
          invariant r < edgesAndVersions && KeyOf(view.pa[|view.pa| - 1]) < key ==> beyond > key
          decreases r - l + 1
        {
          m := (l + r) / 2;
          var k := Key(start[m].word);
          assert m < |view.pa| ==> k == KeyOf(view.pa[m]);
          if k > key {
            r := m - 1;
          } else if k < key {
            l := m + 1;
          } else {
            return;
          }
        }
      }
      m := -1;
    }

    // The first i items have been compacted into the first y slots.
    ghost static predicate Compacted(a: array<Slot>, half: nat, pa: seq<Item>, oldest: nat, i: nat, y: nat)
      reads a
    {
      i <= |pa| && y == |KeepTo(pa, i, oldest)| <= i && Holds(a, half, KeepTo(pa, i, oldest)) && Written(a, half, pa, i)
    }

    // The compaction loop of the merge, in place; dropped keys leave the index.
    static method Compact(a: array<Slot>, half: nat, n: nat, index: HashTable2, oldest: nat, ghost pa: seq<Item>)
      returns (y: nat)
      requires |pa| == n && Holds(a, half, pa) && index.Valid()
      requires forall i :: 0 <= i < n ==> KeyOf(pa[i]) < DELETION_MASK
      modifies a, index, index.hashtable
      ensures index.Valid() && index.hashtable == old(index.hashtable)
      ensures index.contents == old(index.contents) - Gone(pa, oldest)
      ensures y == |Keep(pa, oldest)| <= n && Holds(a, half, Keep(pa, oldest))
    {
      y := 0;
      var i := 0;
      ghost var keys := index.contents;
      while i < n
        invariant 0 <= i <= n && Compacted(a, half, pa, oldest, i, y)
        invariant index.Valid() && index.hashtable == old(index.hashtable)
        invariant index.contents == keys - GoneTo(pa, i, oldest)
      {
        LeftInIndex(keys, pa, oldest, i);
        y := KeepOrDrop(a, half, i, y, index, oldest, pa);
        i := i + 1;
      }
    }

    static method KeepOrDrop(a: array<Slot>, half: nat, i: nat, y: nat, index: HashTable2, oldest: nat,
                             ghost pa: seq<Item>)
      returns (z: nat)
      requires Compacted(a, half, pa, oldest, i, y) && i < |pa| && KeyOf(pa[i]) < DELETION_MASK && index.Valid()
      modifies a, index, index.hashtable
      ensures Compacted(a, half, pa, oldest, i + 1, z)
      ensures index.Valid() && index.hashtable == old(index.hashtable)
      ensures index.contents == if Droppable(pa[i], oldest) then old(index.contents) - {KeyOf(pa[i])}
          else old(index.contents)
    {
      z := y;
      assert pa[i] == Item(a[i], a[half + i]);
      if !(IsDelete(a[i].word) && a[i].block < oldest) {
        MoveDown(a, half, i, y, pa, oldest);
        z := y + 1;
      } else {
        index.RemoveDestHashTableVal(Key(a[i].word));
      }
    }

    static method MoveDown(a: array<Slot>, half: nat, i: nat, y: nat, ghost pa: seq<Item>, ghost oldest: nat)
      requires Compacted(a, half, pa, oldest, i, y) && i < |pa| && !Droppable(pa[i], oldest)
      modifies a
      ensures Compacted(a, half, pa, oldest, i + 1, y + 1)
    {
      ghost var kept := KeepTo(pa, i, oldest);
      assert KeepTo(pa, i + 1, oldest) == kept + [pa[i]];
      a[half + y] := a[half + i];
      a[y] := a[i];
    }

    // One merged item goes to position nw; everything still unread lies below it.
    static method PutMerged(dst: array<Slot>, dcap: nat, nw: nat, e: Slot, p: Slot,
                            ghost r: seq<Item>, src: array<Slot>, scap: nat, ghost a: seq<Item>, ghost n: nat)
      requires Written(dst, dcap, r, nw + 1) && r[nw] == Item(e, p) && n <= nw
      requires HoldsTo(src, scap, a, n) && (dst == src ==> dcap == scap)
      modifies dst
      ensures Written(dst, dcap, r, nw) && HoldsTo(src, scap, a, n)
    {
      dst[dcap + nw] := p;
      dst[nw] := e;
    }

    ghost static predicate SortedBuffer(tmp: array<Slot>, order: seq<nat>, b: seq<Item>)
      reads tmp
    {
      tmp.Length == 128 && |order| == |b| == 64 &&
      forall j :: 0 <= j < 64 ==> order[j] < 64 && b[j] == Item(tmp[order[j]], tmp[64 + order[j]])
    }

    static lemma SortedBufferOf(tmp: array<Slot>, buf: seq<Item>, order: seq<nat>)
      requires tmp.Length == 128 && |buf| == 64 && Holds(tmp, 64, buf) && BufferOrder(buf, order)
      ensures SortedBuffer(tmp, order, Ordered(buf, order))
    {
    }

    // Both fronts still to be merged, and the free slots above them.
    ghost static predicate Merging(dst: array<Slot>, dcap: nat, src: array<Slot>, scap: nat,
                                   r: seq<Item>, a: seq<Item>, b: seq<Item>, left: int, x: int)
      reads dst, src
    {
      && -1 <= left < |a| && -1 <= x < 64 && Fronts(r, a, left + 1, b, x + 1)
      && Written(dst, dcap, r, left + x + 2) && HoldsTo(src, scap, a, left + 1)
    }

    static method TakeBuffered(dst: array<Slot>, dcap: nat, src: array<Slot>, scap: nat, tmp: array<Slot>,
                               order: seq<nat>, left: int, x: int, ghost r: seq<Item>, ghost a: seq<Item>,
                                   ghost b: seq<Item>)
      requires dst != tmp && (dst == src ==> dcap == scap) && SortedBuffer(tmp, order, b)
      requires Merging(dst, dcap, src, scap, r, a, b, left, x) && left >= 0 && x >= 0 && KeyOf(b[x]) > KeyOf(a[left])
      modifies dst
      ensures Merging(dst, dcap, src, scap, r, a, b, left, x - 1)
    {
      PutMerged(dst, dcap, left + x + 1, tmp[order[x]], tmp[64 + order[x]], r, src, scap, a, left + 1);
    }

    static method TakeStored(dst: array<Slot>, dcap: nat, src: array<Slot>, scap: nat, tmp: array<Slot>,
                             left: int, x: int, ghost r: seq<Item>, ghost a: seq<Item>, ghost b: seq<Item>)
      requires dst != tmp && (dst == src ==> dcap == scap)
      requires Merging(dst, dcap, src, scap, r, a, b, left, x) && left >= 0 && x >= 0 && KeyOf(b[x]) <= KeyOf(a[left])
      modifies dst
      ensures Merging(dst, dcap, src, scap, r, a, b, left - 1, x)
    {
      PutMerged(dst, dcap, left + x + 1, src[left], src[scap + left], r, src, scap, a, left);
    }

    // The main merging loop, from the back: dst may be src itself.
    static method MergeLoop(dst: array<Slot>, dcap: nat, src: array<Slot>, scap: nat, tmp: array<Slot>, order: seq<nat>,
                            y: nat, ghost r: seq<Item>, ghost a: seq<Item>, ghost b: seq<Item>)
      returns (left: int, x: int)
      requires y == |a| && |r| == y + 64 <= dcap && dst.Length == 2 * dcap && dst != tmp && Fronts(r, a, y, b, 64)
      requires HoldsTo(src, scap, a, y) && (dst == src ==> dcap == scap) && SortedBuffer(tmp, order, b)
      modifies dst
      ensures Merging(dst, dcap, src, scap, r, a, b, left, x) && (left < 0 || x < 0)
    {
      left, x := y - 1, 63;
      while x >= 0 && left >= 0
        invariant Merging(dst, dcap, src, scap, r, a, b, left, x)
      {
        assert a[left] == Item(src[left], src[scap + left]);
        if Key(tmp[order[x]].word) > Key(src[left].word) {
          TakeBuffered(dst, dcap, src, scap, tmp, order, left, x, r, a, b);
          x := x - 1;
        } else {
          TakeStored(dst, dcap, src, scap, tmp, left, x, r, a, b);
          left := left - 1;
        }
      }
    }

    // The rest of the buffer, when the primary array ran out first.
    static method FlushBuffer(dst: array<Slot>, dcap: nat, tmp: array<Slot>, order: seq<nat>, from: int,
                              ghost r: seq<Item>, ghost b: seq<Item>)
      requires -1 <= from < 64 && dst != tmp && SortedBuffer(tmp, order, b)
      requires Written(dst, dcap, r, from + 1) && forall i :: 0 <= i <= from ==> r[i] == b[i]
      modifies dst
      ensures Written(dst, dcap, r, 0)
    {
      var x := from;
      while x >= 0
        invariant -1 <= x <= from && Written(dst, dcap, r, x + 1)
      {
        PutMerged(dst, dcap, x, tmp[order[x]], tmp[64 + order[x]], r, dst, dcap, r, 0);
        x := x - 1;
      }
    }

    // The memcpy of the untouched front when the array has grown.
    static method CopyFront(dst: array<Slot>, dcap: nat, src: array<Slot>, scap: nat, n: nat,
                            ghost r: seq<Item>, ghost a: seq<Item>)
      requires dst != src && HoldsTo(src, scap, a, n) && Written(dst, dcap, r, n)
      requires forall i :: 0 <= i < n ==> r[i] == a[i]
      modifies dst
      ensures Written(dst, dcap, r, 0)
    {
      var i := n;
      while i > 0
        invariant 0 <= i <= n && Written(dst, dcap, r, i) && HoldsTo(src, scap, a, n)
      {
        i := i - 1;
        PutMerged(dst, dcap, i, src[i], src[scap + i], r, src, scap, a, i);
      }
    }

    // Both merging loops and, for a grown array, the copy of what they left untouched; in place, the
    // untouched front already stands where it belongs.
    static method MergeInto(dst: array<Slot>, dcap: nat, src: array<Slot>, scap: nat, tmp: array<Slot>, order: seq<nat>,
                            y: nat, ghost a: seq<Item>, ghost b: seq<Item>)
      requires y == |a| && y + 64 <= dcap && dst.Length == 2 * dcap && dst != tmp
      requires Holds(src, scap, a) && (dst == src ==> dcap == scap) && SortedBuffer(tmp, order, b)
      modifies dst
      ensures Holds(dst, dcap, Merge(a, b))
    {
      ghost var r := Merge(a, b);
      MergeFronts(r, a, y, b, 64);
      var left, x := MergeLoop(dst, dcap, src, scap, tmp, order, y, r, a, b);
      if x >= 0 {
        FlushBuffer(dst, dcap, tmp, order, x, r, b);
      } else if dst != src {
        CopyFront(dst, dcap, src, scap, left + 1, r, a);
      }
    }

    // g is c doubled some number of times.
    static predicate Doubled(c: nat, g: nat) {
      g == c || (g > c && g % 2 == 0 && Doubled(c, g / 2))
    }

    static lemma {:induction false} DoubledAgain(c: nat, g: nat)
      requires c > 0 && Doubled(2 * c, g)
      ensures Doubled(c, g)
    {
      if g != 2 * c {
        DoubledAgain(c, g / 2);
      }
    }

    // The least doubling that is enough.
    static function GrownCapacity(c: nat, needed: nat): (g: nat)
      requires c > 0
      ensures g >= needed && g >= c && Doubled(c, g) && (g == c || g < 2 * needed)
      decreases if c < needed then needed - c else 0
    {
      if c < needed then
        var g := GrownCapacity(2 * c, needed);
        DoubledAgain(c, g);
        g
      else c
    }

    // A capacity that does not suffice is doubled until it does; the first is what is needed.
    static predicate GrowsTo(c: nat, needed: nat, g: nat) {
      if needed <= c then g == c else if c == 0 then g == needed else Doubled(c, g) && needed <= g < 2 * needed
    }

    // The array work of the merge: grow if needed, compact, merge.
    static method FlushArrays(src: array<Slot>, scap: nat, n: nat, tmp: array<Slot>, index: HashTable2,
                              oldest: nat, order: seq<nat>, ghost pa: seq<Item>, ghost sorted: seq<Item>)
      returns (dst: array<Slot>, dcap: nat, y: nat)
      requires src.Length == 2 * scap && |pa| == n && Holds(src, scap, pa) && src != tmp
      requires SortedBuffer(tmp, order, sorted) && index.Valid()
      requires forall i :: 0 <= i < n ==> KeyOf(pa[i]) < DELETION_MASK
      modifies src, index, index.hashtable
      ensures index.Valid() && index.hashtable == old(index.hashtable)
      ensures index.contents == old(index.contents) - Gone(pa, oldest)
      ensures y == |Keep(pa, oldest)| <= n && n + 64 <= dcap && GrowsTo(scap, n + 64, dcap)
      ensures dst.Length == 2 * dcap && (dst == src || fresh(dst))
      ensures Holds(dst, dcap, Merge(Keep(pa, oldest), sorted))
    {
      dcap, dst := scap, src;
      if n + 64 > scap {
        dcap := if scap == 0 then n + 64 else GrownCapacity(scap, n + 64);
        dst := new Slot[2 * dcap];
      }
      y := Compact(src, scap, n, index, oldest, pa);
      MergeInto(dst, dcap, src, scap, tmp, order, y, Keep(pa, oldest), sorted);
    }

    static method FlushIndexed(src: array<Slot>, scap: nat, n: nat, tmp: array<Slot>, index: HashTable2,
                               oldest: nat, order: seq<nat>, ghost pa: seq<Item>, ghost buf: seq<Item>,
                               ghost items: map<nat, Item>, ghost loc: map<nat, Where>)
      returns (dst: array<Slot>, dcap: nat, y: nat, ghost r: seq<Item>, ghost after: map<nat, Item>,
          ghost places: map<nat, Where>)
      requires src.Length == 2 * scap && |pa| == n && Holds(src, scap, pa) && src != tmp
      requires tmp.Length == 128 && |buf| == 64 && Holds(tmp, 64, buf) && BufferOrder(buf, order)
      requires Indexed(pa, buf, items, loc) && index.Valid() && index.contents == items.Keys
      requires forall k :: k in items ==> k < DELETION_MASK
      modifies src, index, index.hashtable
      ensures index.Valid() && index.hashtable == old(index.hashtable) && index.contents == after.Keys
      ensures y <= n && |r| == y + 64 <= dcap && dst.Length == 2 * dcap && (dst == src || fresh(dst))
      ensures GrowsTo(scap, n + 64, dcap)
      ensures Holds(dst, dcap, r) && Indexed(r, [], after, places) && AfterMerge(items, loc, oldest, after)
    {
      forall i | 0 <= i < |pa|
        ensures KeyOf(pa[i]) < DELETION_MASK
      {
        assert Placed(pa, loc, i, InPa(i));
      }
      SortedBufferOf(tmp, buf, order);
      dst, dcap, y := FlushArrays(src, scap, n, tmp, index, oldest, order, pa, Ordered(buf, order));
      IndexedMerge(pa, buf, items, loc, oldest, order);
      MergeDropsExactly(pa, buf, items, loc, oldest);
      r := Merge(Keep(pa, oldest), Ordered(buf, order));
      after, places := items - Gone(pa, oldest), Places(r);
    }

    // merge_tmpev_with_eb: flush the full buffer into the primary array, in place or into a grown
    // one, dropping edges deleted before `oldest`.
    method MergeTmpevWithEb(oldest: nat, order: seq<nat>)
      requires Valid() && tmpEv == 64 && BufferOrder(view.buf, order)
      modifies this, start, M, M.hashtable
      ensures Valid() && tmpEv == 0 && mergeTimes == old(mergeTimes) + 1 && num <= capacity && num <= old(num)
      ensures M.hashtable == old(M.hashtable) && (start == old(start) || fresh(start))
      ensures AfterMerge(old(view.items), old(view.loc), oldest, view.items)
      ensures edgesAndVersions >= 64 && GrowsTo(old(capacity), old(num), capacity)
    {
      mergeTimes := mergeTimes + 1;
      var y;
      ghost var r, after, places;
      start, capacity, y, r, after, places :=
        FlushIndexed(start, capacity, edgesAndVersions, tmpItem, M, oldest, order, view.pa, view.buf, view.items,
                     view.loc);
      edgesAndVersions, tmpEv, num := y + 64, 0, y + 64;
      view := Layout(r, [], after, places);
    }

    // With an empty buffer every stored key is found before the slot past the end is.
    lemma NoHitWhenMerged(key: nat)
      requires Valid() && tmpEv == 0 && key in view.items
      ensures !PastEndHit(view.pa, PastEnd(), key)
    {
      assert Held(view.pa, view.buf, view.items, view.loc, key);
    }

    lemma AllInPrimary()
      requires Valid() && tmpEv == 0
      ensures view.items.Keys == view.loc.Keys && forall k :: k in view.loc ==> view.loc[k].InPa?
    {
      forall k | k in view.loc
        ensures view.loc[k].InPa?
      {
        assert Held(view.pa, view.buf, view.items, view.loc, k);
      }
    }
  }

  // ---- The search past the end ----

  // Of the keys 0 to n - 1, each waiting in the buffer with weight 1000, key k.
  ghost predicate WaitsAt(items: map<nat, Item>, loc: map<nat, Where>, n: nat, k: nat) {
    (k in items <==> k < n) &&
    (k in items ==> k in loc && loc[k] == InBuf(k) && items[k].e == Slot(k, 0, 0) && items[k].p.word == 1000)
  }

  ghost predicate Waiting(items: map<nat, Item>, loc: map<nat, Where>, n: nat) {
    forall k: nat {:trigger WaitsAt(items, loc, n, k)} :: WaitsAt(items, loc, n, k)
  }

  lemma OneMoreWaits(items: map<nat, Item>, loc: map<nat, Where>, n: nat, stale: Slot)
    requires Waiting(items, loc, n)
    ensures n !in items && Waiting(items[n := NewItem(n, 1000, stale)], loc[n := InBuf(n)], n + 1)
  {
    var more, places := items[n := NewItem(n, 1000, stale)], loc[n := InBuf(n)];
    assert WaitsAt(items, loc, n, n);
    forall k: nat {:trigger WaitsAt(more, places, n + 1, k)}
      ensures WaitsAt(more, places, n + 1, k)
    {
      assert WaitsAt(items, loc, n, k);
    }
  }

  function Identity(n: nat): seq<nat> {
    seq(n, i => i)
  }

  lemma WaitingIsSorted(pa: seq<Item>, buf: seq<Item>, items: map<nat, Item>, loc: map<nat, Where>)
    requires Indexed(pa, buf, items, loc) && Waiting(items, loc, |buf|)
    ensures BufferOrder(buf, Identity(|buf|))
  {
    forall i | 0 <= i < |buf|
      ensures KeyOf(buf[i]) == i && i in Identity(|buf|)
    {
      assert WaitsAt(items, loc, |buf|, i) && Held(pa, buf, items, loc, i);
      assert Identity(|buf|)[i] == i;
    }
  }

  lemma MergedWeighs(items: map<nat, Item>, loc: map<nat, Where>, n: nat, after: map<nat, Item>, pa: seq<Item>,
                     places: map<nat, Where>)
    requires Waiting(items, loc, n) && AfterMerge(items, loc, 0, after) && Indexed(pa, [], after, places)
    ensures forall k :: k in after ==> k < n
    ensures forall i :: 0 <= i < |pa| ==> KeyOf(pa[i]) < n && pa[i].p.word == 1000
  {
    forall k | k in after
      ensures k < n && after[k].p.word == 1000
    {
      assert WaitsAt(items, loc, n, k);
    }
    forall i | 0 <= i < |pa|
      ensures KeyOf(pa[i]) < n && pa[i].p.word == 1000
    {
      assert Placed(pa, places, i, InPa(i)) && Held(pa, [], after, places, KeyOf(pa[i]));
    }
  }

  method FillBuffer() returns (s: EdgeStore)
    ensures fresh(s) && fresh(s.start) && fresh(s.tmpItem) && fresh(s.M) && fresh(s.M.hashtable)
    ensures s.Valid() && s.tmpEv == 64 && s.capacity == s.edgesAndVersions == 0 && Waiting(s.view.items, s.view.loc, 64)
  {
    s := new EdgeStore();
    var n := 0;
    while n < 64
      invariant 0 <= n <= 64 && fresh(s) && fresh(s.start) && fresh(s.tmpItem) && fresh(s.M) && fresh(s.M.hashtable)
      invariant s.Valid() && s.tmpEv == n && s.capacity == s.edgesAndVersions == 0
      invariant Waiting(s.view.items, s.view.loc, n)
    {
      OneMoreWaits(s.view.items, s.view.loc, n, Slot(0, 0, 0));
      ghost var items, loc := s.view.items, s.view.loc;
      var w, stale := s.Append(n, 1000);
      OneMoreWaits(items, loc, n, stale);
      n := n + 1;
    }
  }

  // The state right after the first merge: a full primary array, so that the slot past its last edge is
  // the property half of its first.
  method FirstMerge() returns (s: EdgeStore)
    ensures fresh(s) && fresh(s.start) && fresh(s.tmpItem) && fresh(s.M) && fresh(s.M.hashtable)
    ensures s.Valid() && s.tmpEv == 0 && s.capacity == s.edgesAndVersions == 64 && 1000 !in s.view.items
    ensures s.PastEnd().word == 1000 && forall i :: 0 <= i < |s.view.pa| ==> KeyOf(s.view.pa[i]) < 64
  {
    s := FillBuffer();
    ghost var items, loc := s.view.items, s.view.loc;
    WaitingIsSorted(s.view.pa, s.view.buf, items, loc);
    s.MergeTmpevWithEb(0, Identity(64));
    MergedWeighs(items, loc, 64, s.view.items, s.view.pa, s.view.loc);
    assert s.view.pa[0].p == s.start[64];
  }

  // No deletion is needed for the search to go wrong: an edge in the buffer whose key is the first
  // edge's weight is found past the end of a full primary array.
  method FullArrayMatchesAWeight() returns (s: EdgeStore, found: bool, w: Where)
    ensures s.Valid() && s.capacity == s.edgesAndVersions == 64 && 1000 in s.view.loc && s.view.loc[1000] == InBuf(0)
    ensures found && w == InPa(64)
  {
    s := FirstMerge();
    ghost var pa := s.view.pa;
    var at, stale := s.Append(1000, 1);
    found, w := s.GetEdgeIndex(1000);
  }
}
