// The open-addressing hash set that indexes one vertex's adjacency
// (class HashTable2 of data-structure/EdgeBlock/HashTable.h): linear probing,
// doubling when half full, and Knuth's backward-shift removal.
module HashSet {
  import opened Counting

  // The 0xff-filled 64-bit word that marks a free slot.
  const EMPTY: nat := 0xffff_ffff_ffff_ffff

  predicate IsPowerOfTwo(n: nat) {
    n == 1 || (n > 1 && n % 2 == 0 && IsPowerOfTwo(n / 2))
  }

  function BitAnd(a: nat, b: nat): nat {
    if a == 0 || b == 0 then 0
    else 2 * BitAnd(a / 2, b / 2) + if a % 2 == 1 && b % 2 == 1 then 1 else 0
  }

  // Dividing in two steps, by 2 and by n, leaves the same remainder as dividing by 2 * n.
  lemma ModuloTwice(a: nat, n: nat)
    requires n > 0
    ensures a % (2 * n) == 2 * ((a / 2) % n) + a % 2
  {
    var q, r := (a / 2) / n, 2 * ((a / 2) % n) + a % 2;
    assert a == q * (2 * n) + r;
    ModuloIs(a, 2 * n, q, r);
  }

  lemma ModuloIs(a: nat, m: nat, q: nat, r: nat)
    requires r < m && a == q * m + r
    ensures a % m == r
  {
    var p, t := a / m, a % m;
    assert a == m * p + t;
    if p < q {
      NextMultiple(p, q, m);
    } else if p > q {
      NextMultiple(q, p, m);
    }
  }

  lemma {:induction false} NextMultiple(p: nat, q: nat, m: nat)
    requires p < q
    ensures p * m + m <= q * m
  {
    assert q * m == (q - 1) * m + m;
    if p < q - 1 {
      NextMultiple(p, q - 1, m);
    }
  }

  // For a power of two, `key & (size - 1)` is `key % size`.
  lemma {:induction false} MaskIsModulo(key: nat, size: nat)
    requires IsPowerOfTwo(size)
    ensures BitAnd(key, size - 1) == key % size
  {
    if size > 1 {
      MaskIsModulo(key / 2, size / 2);
      ModuloTwice(key, size / 2);
    }
  }

  // `key & (size - 1)`, since table sizes are powers of two.
  function Home(key: nat, size: nat): (h: nat)
    requires size > 0
    ensures h < size
  {
    key % size
  }

  // `(index + 1) & (size - 1)`.
  function Next(index: nat, size: nat): (n: nat)
    requires index < size
    ensures n < size && n == (index + 1) % size
  {
    if index + 1 == size then 0 else index + 1
  }

  // j lies in the cyclic half-open interval [a, b).
  predicate OnPath(a: nat, j: nat, b: nat) {
    if a <= b then a <= j < b else j >= a || j < b
  }

  // Steps from a to b when walking upwards with wrap-around.
  function Gap(a: nat, b: nat, size: nat): (d: nat)
    requires a < size && b < size
    ensures d < size
  {
    if a <= b then b - a else size - a + b
  }

  // The key in slot p can be found from its home: no slot on the way is free,
  // except possibly `hole`.
  ghost predicate ReachableBut(t: seq<nat>, p: nat, hole: nat)
    requires p < |t|
  {
    t[p] != EMPTY ==>
      forall q :: 0 <= q < |t| && OnPath(Home(t[p], |t|), q, p) ==> t[q] != EMPTY || q == hole
  }

  ghost predicate Probeable(t: seq<nat>) {
    forall p :: 0 <= p < |t| ==> ReachableBut(t, p, |t|)
  }

  // t stores every key of keys exactly once and nothing else.
  ghost predicate Stores(t: seq<nat>, keys: set<nat>) {
    && (forall p :: 0 <= p < |t| && t[p] != EMPTY ==> t[p] in keys)
    && (forall k {:trigger k in t} :: k in keys ==> k < EMPTY && k in t)
    && (forall p, q :: 0 <= p < q < |t| && t[p] != EMPTY ==> t[p] != t[q])
  }

  // What the probe loops walk over: the slots from a to b are taken and hold other keys.
  ghost predicate Passed(t: seq<nat>, a: nat, b: nat, key: nat) {
    forall q :: 0 <= q < |t| && OnPath(a, q, b) ==> t[q] != EMPTY && t[q] != key
  }

  // A table that is at most half full has a free slot, so every probe stops.
  lemma FreeSlot(t: seq<nat>, keys: set<nat>) returns (e: nat)
    requires Stores(t, keys) && |keys| < |t|
    ensures e < |t| && t[e] == EMPTY
  {
    if forall p :: 0 <= p < |t| ==> t[p] != EMPTY {
      Pigeonhole(t);
      SubsetSize(Keys(t), keys);
      assert false;
    }
    e :| 0 <= e < |t| && t[e] == EMPTY;
  }

  // The first free slot met when probing from the key's home proves absence.
  lemma AbsentIfFree(t: seq<nat>, keys: set<nat>, key: nat, index: nat)
    requires Stores(t, keys) && Probeable(t)
    requires index < |t| && t[index] == EMPTY && key != EMPTY
    requires Passed(t, Home(key, |t|), index, key)
    ensures key !in keys
  {
    forall p | 0 <= p < |t|
      ensures t[p] != key
    {
      assert ReachableBut(t, p, |t|);
    }
    assert key !in t;
  }

  // Placing a new key in the first free slot of its probe path.
  lemma PlaceKeeps(t: seq<nat>, keys: set<nat>, key: nat, index: nat)
    requires Stores(t, keys) && Probeable(t)
    requires index < |t| && t[index] == EMPTY && key < EMPTY && key !in keys
    requires Passed(t, Home(key, |t|), index, key)
    ensures Stores(t[index := key], keys + {key}) && Probeable(t[index := key])
  {
    var u := t[index := key];
    forall k | k in keys + {key}
      ensures k < EMPTY && k in u
    {
      if k == key {
        assert u[index] == key;
      } else {
        assert k in t;
        var p :| 0 <= p < |t| && t[p] == k;
        assert u[p] == k;
      }
    }
    forall p | 0 <= p < |u|
      ensures ReachableBut(u, p, |u|)
    {
      assert ReachableBut(t, p, |t|);
    }
  }

  // The keys in the first n slots.
  function MovedTo(t: seq<nat>, n: nat): set<nat>
    requires n <= |t|
  {
    if n == 0 then {} else if t[n - 1] == EMPTY then MovedTo(t, n - 1) else MovedTo(t, n - 1) + {t[n - 1]}
  }

  lemma {:induction false} MovedMembers(t: seq<nat>, n: nat, k: nat)
    requires n <= |t|
    ensures k in MovedTo(t, n) <==> k != EMPTY && exists i :: 0 <= i < n && t[i] == k
  {
    if n > 0 {
      MovedMembers(t, n - 1, k);
    }
  }

  // The next slot's key has not been moved yet, so there is room for it.
  lemma MovedSoFar(t: seq<nat>, keys: set<nat>, i: nat)
    requires Stores(t, keys) && i < |t|
    ensures t[i] != EMPTY ==> t[i] !in MovedTo(t, i) && t[i] < EMPTY
    ensures |MovedTo(t, i)| <= |keys|
  {
    MovedMembers(t, i, t[i]);
    assert t[i] in t;
    forall k | k in MovedTo(t, i)
      ensures k in keys
    {
      MovedMembers(t, i, k);
    }
    SubsetSize(MovedTo(t, i), keys);
  }

  lemma AllMoved(t: seq<nat>, keys: set<nat>)
    requires Stores(t, keys)
    ensures MovedTo(t, |t|) == keys
  {
    forall k
      ensures k in MovedTo(t, |t|) <==> k in keys
    {
      MovedMembers(t, |t|, k);
      assert k in keys ==> k in t;
    }
  }

  ghost predicate ProbeableBut(t: seq<nat>, hole: nat) {
    forall p :: 0 <= p < |t| ==> ReachableBut(t, p, hole)
  }

  // The slots after the hole up to j are taken by keys whose path avoids the hole.
  ghost predicate Scanned(t: seq<nat>, hole: nat, j: nat)
    requires hole < |t| && j < |t|
  {
    forall p :: 0 <= p < |t| && p != hole && (p == j || OnPath(hole, p, j)) && hole != j ==>
      t[p] != EMPTY && !OnPath(Home(t[p], |t|), hole, p)
  }

  lemma HoleOpened(t: seq<nat>, keys: set<nat>, index: nat)
    requires Stores(t, keys) && Probeable(t) && index < |t| && t[index] != EMPTY
    ensures Stores(t[index := EMPTY], keys - {t[index]}) && ProbeableBut(t[index := EMPTY], index)
  {
    var u := t[index := EMPTY];
    forall k | k in keys - {t[index]}
      ensures k < EMPTY && k in u
    {
      assert k in t;
      var p :| 0 <= p < |t| && t[p] == k;
      assert u[p] == k;
    }
    forall p | 0 <= p < |u|
      ensures ReachableBut(u, p, index)
    {
      assert ReachableBut(t, p, |t|);
    }
  }

  // Moving the key at j into the hole i that lies on its path makes j the hole.
  lemma ShiftKeeps(t: seq<nat>, keys: set<nat>, i: nat, j: nat)
    requires Stores(t, keys) && ProbeableBut(t, i) && i < |t| && j < |t|
    requires t[i] == EMPTY && t[j] != EMPTY && OnPath(Home(t[j], |t|), i, j)
    ensures Stores(t[i := t[j]][j := EMPTY], keys) && ProbeableBut(t[i := t[j]][j := EMPTY], j)
  {
    var u := t[i := t[j]][j := EMPTY];
    forall k | k in keys
      ensures k < EMPTY && k in u
    {
      assert k in t;
      var p :| 0 <= p < |t| && t[p] == k;
      assert u[if p == j then i else p] == k;
    }
    forall p | 0 <= p < |u|
      ensures ReachableBut(u, p, j)
    {
      assert ReachableBut(t, p, i) && ReachableBut(t, j, i);
    }
  }

  // A free slot right after the scanned range ends the cluster: the hole is on nobody's path.
  lemma HoleClosed(t: seq<nat>, hole: nat, last: nat, next: nat)
    requires hole < |t| && last < |t| && next < |t| && next == Next(last, |t|)
    requires ProbeableBut(t, hole) && Scanned(t, hole, last) && t[next] == EMPTY && next != hole
    ensures Probeable(t)
  {
    forall p | 0 <= p < |t|
      ensures ReachableBut(t, p, |t|)
    {
      assert ReachableBut(t, p, hole);
    }
  }

  class HashTable2 {
    var hashtable: array<nat>
    var entryCounter: nat
    var hashBlockSize: nat
    ghost var contents: set<nat>

    ghost predicate Valid()
      reads this, hashtable
    {
      && hashBlockSize == hashtable.Length >= 2 && IsPowerOfTwo(hashBlockSize)
      && entryCounter == |contents|
      && 2 * entryCounter <= hashBlockSize
      && Stores(hashtable[..], contents)
      && Probeable(hashtable[..])
    }

    constructor ()
      ensures Valid() && fresh(hashtable) && contents == {} && hashBlockSize == 2
    {
      hashBlockSize := 2;
      hashtable := new nat[2](_ => EMPTY);
      entryCounter := 0;
      contents := {};
    }

    method GetDestHashTableVal(key: nat) returns (found: bool)
      requires Valid() && key < EMPTY
      ensures found <==> key in contents
    {
      var index: nat := Home(key, hashBlockSize);
      ghost var free := FreeSlot(hashtable[..], contents);
      while hashtable[index] != EMPTY
        invariant index < hashBlockSize
        invariant Passed(hashtable[..], Home(key, hashBlockSize), index, key)
        invariant hashtable[..][free] == EMPTY
        decreases Gap(index, free, hashBlockSize)
      {
        if hashtable[index] == key {
          assert hashtable[..][index] == key;
          return true;
        }
        index := index + 1;
        if index >= hashBlockSize {
          index := 0;
        }
      }
      AbsentIfFree(hashtable[..], contents, key, index);
      found := false;
    }

    // The probe loop shared by insertion and growth: the first free slot from the key's home.
    static method FirstFree(t: array<nat>, ghost keys: set<nat>, key: nat) returns (index: nat)
      requires Stores(t[..], keys) && |keys| < t.Length && key !in keys
      ensures index < t.Length && t[index] == EMPTY
      ensures Passed(t[..], Home(key, t.Length), index, key)
    {
      index := Home(key, t.Length);
      ghost var free := FreeSlot(t[..], keys);
      while t[index] != EMPTY
        invariant index < t.Length
        invariant Passed(t[..], Home(key, t.Length), index, key)
        invariant t[..][free] == EMPTY
        decreases Gap(index, free, t.Length)
      {
        assert t[..][index] != key;
        index := index + 1;
        if index >= t.Length {
          index := 0;
        }
      }
    }

    // Stores a new key in the first free slot from its home.
    static method Place(t: array<nat>, ghost keys: set<nat>, key: nat)
      requires Stores(t[..], keys) && Probeable(t[..]) && |keys| < t.Length && key !in keys && key < EMPTY
      modifies t
      ensures Stores(t[..], keys + {key}) && Probeable(t[..])
    {
      var index := FirstFree(t, keys, key);
      PlaceKeeps(t[..], keys, key, index);
      t[index] := key;
      assert t[..] == old(t[..])[index := key];
    }

    // Copies every key of an old table to its place in an empty larger one.
    static method Rehash(former: array<nat>, t: array<nat>, ghost keys: set<nat>)
      requires former != t && Stores(former[..], keys) && |keys| < t.Length
      requires Stores(t[..], {}) && Probeable(t[..])
      modifies t
      ensures Stores(t[..], keys) && Probeable(t[..])
    {
      ghost var from := former[..];
      ghost var moved: set<nat> := {};
      var i := 0;
      while i < former.Length
        invariant 0 <= i <= former.Length
        invariant moved == MovedTo(from, i)
        invariant Stores(t[..], moved) && Probeable(t[..])
      {
        MovedSoFar(from, keys, i);
        if former[i] != EMPTY {
          Place(t, moved, former[i]);
          moved := moved + {former[i]};
        }
        i := i + 1;
      }
      AllMoved(from, keys);
    }

    method ResizeHashTable(requested: nat)
      requires Valid() && requested == 2 * hashBlockSize
      modifies this
      ensures Valid() && fresh(hashtable) && contents == old(contents)
      ensures hashBlockSize == requested && entryCounter == old(entryCounter)
    {
      var newHashTable := new nat[requested](_ => EMPTY);
      Rehash(hashtable, newHashTable, contents);
      hashtable := newHashTable;
      hashBlockSize := requested;
    }

    // The table doubles exactly when the new key would fill it more than half.
    method SetDestHashTableVal(key: nat)
      requires Valid() && key < EMPTY && key !in contents
      modifies this, hashtable
      ensures Valid() && (hashtable == old(hashtable) || fresh(hashtable))
      ensures contents == old(contents) + {key}
      ensures hashBlockSize == old(hashBlockSize) * if 2 * |contents| > old(hashBlockSize) then 2 else 1
    {
      if entryCounter >= hashBlockSize / 2 {
        ResizeHashTable(hashBlockSize * 2);
      }
      entryCounter := entryCounter + 1;
      Place(hashtable, contents, key);
      contents := contents + {key};
    }

    // Finds the key's slot, or the free slot that ends its probe path.
    method FindSlot(key: nat) returns (index: nat)
      requires Valid() && key < EMPTY
      ensures index < hashBlockSize
      ensures hashtable[index] == key <==> key in contents
    {
      index := Home(key, hashBlockSize);
      ghost var free := FreeSlot(hashtable[..], contents);
      while hashtable[index] != EMPTY && hashtable[index] != key
        invariant index < hashBlockSize
        invariant Passed(hashtable[..], Home(key, hashBlockSize), index, key)
        invariant hashtable[..][free] == EMPTY
        decreases Gap(index, free, hashBlockSize)
      {
        index := Next(index, hashBlockSize);
      }
      if hashtable[index] == EMPTY {
        AbsentIfFree(hashtable[..], contents, key, index);
      } else {
        assert hashtable[..][index] == key;
      }
    }

    method RemoveDestHashTableVal(key: nat)
      requires Valid() && key < EMPTY
      modifies this, hashtable
      ensures Valid() && hashtable == old(hashtable)
      ensures contents == old(contents) - {key}
    {
      var index := FindSlot(key);
      if hashtable[index] != key {
        return;
      }
      ghost var free := FreeSlot(hashtable[..], contents);
      ghost var t := hashtable[..];
      contents := contents - {key};
      hashtable[index] := EMPTY;
      HoleOpened(t, old(contents), index);
      assert hashtable[..] == t[index := EMPTY];
      CloseHole(index, free);
      entryCounter := entryCounter - 1;
    }

    // Backward-shift deletion: pull later keys of the cluster over the hole.
    method CloseHole(hole: nat, ghost free: nat)
      requires hashtable.Length == hashBlockSize && hole < hashBlockSize && free < hashBlockSize && free != hole
      requires hashtable[hole] == EMPTY && hashtable[free] == EMPTY
      requires Stores(hashtable[..], contents) && ProbeableBut(hashtable[..], hole)
      modifies hashtable
      ensures Stores(hashtable[..], contents) && Probeable(hashtable[..])
    {
      var i: nat, j: nat := hole, hole;
      while true
        invariant i < hashBlockSize && j < hashBlockSize
        invariant hashtable[i] == EMPTY && hashtable[free] == EMPTY && free != i
        invariant Stores(hashtable[..], contents) && ProbeableBut(hashtable[..], i)
        invariant Scanned(hashtable[..], i, j) && (i == j || !OnPath(i, free, j))
        decreases Gap(j, free, hashBlockSize)
      {
        ghost var t := hashtable[..];
        var last := j;
        j := Next(j, hashBlockSize);
        if hashtable[j] == EMPTY {
          HoleClosed(t, i, last, j);
          break;
        }
        var home := Home(hashtable[j], hashBlockSize);
        var onPath := if home <= j then home <= i && i < j else i >= home || i < j;
        if onPath {
          ShiftKeeps(t, contents, i, j);
          hashtable[i] := hashtable[j];
          hashtable[j] := EMPTY;
          ghost var u: seq<nat> := t[i := t[j]];
          assert hashtable[..] == u[j := EMPTY];
          i := j;
        }
      }
    }
  }
}
