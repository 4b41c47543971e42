// What merge_tmpev_with_eb (data-structure/EdgeBlock/VertexEdges.cpp:244-313) computes, on sequences.
module MergeSpec {
  import opened VertexState
  import opened VertexModel

  function KeyOf(it: Item): nat {
    Key(it.e.word)
  }

  ghost predicate SortedKeys(s: seq<Item>) {
    forall i, j :: 0 <= i < j < |s| ==> KeyOf(s[i]) < KeyOf(s[j])
  }

  // The compaction of the first n items: deletions older than every reader go.
  function KeepTo(s: seq<Item>, n: nat, oldest: nat): seq<Item>
    requires n <= |s|
  {
    if n == 0 then []
    else if Droppable(s[n - 1], oldest) then KeepTo(s, n - 1, oldest)
    else KeepTo(s, n - 1, oldest) + [s[n - 1]]
  }

  function Keep(s: seq<Item>, oldest: nat): seq<Item> {
    KeepTo(s, |s|, oldest)
  }

  // The merge, from the back, of the first n items of a with the first m of b.
  function MergeTo(a: seq<Item>, n: nat, b: seq<Item>, m: nat): (r: seq<Item>)
    requires n <= |a| && m <= |b|
    ensures |r| == n + m
    decreases n + m
  {
    if m == 0 then a[..n]
    else if n == 0 then b[..m]
    else if KeyOf(b[m - 1]) > KeyOf(a[n - 1]) then MergeTo(a, n, b, m - 1) + [b[m - 1]]
    else MergeTo(a, n - 1, b, m) + [a[n - 1]]
  }

  function Merge(a: seq<Item>, b: seq<Item>): (r: seq<Item>)
    ensures |r| == |a| + |b|
  {
    MergeTo(a, |a|, b, |b|)
  }

  lemma {:induction false} KeepMembers(s: seq<Item>, n: nat, oldest: nat, it: Item)
    requires n <= |s|
    ensures it in KeepTo(s, n, oldest) <==> it in s[..n] && !Droppable(it, oldest)
  {
    if n > 0 {
      KeepMembers(s, n - 1, oldest, it);
      assert s[..n] == s[..n - 1] + [s[n - 1]];
    }
  }

  lemma {:induction false} KeepSorted(s: seq<Item>, n: nat, oldest: nat)
    requires n <= |s| && SortedKeys(s)
    ensures SortedKeys(KeepTo(s, n, oldest))
  {
    if n > 0 {
      KeepSorted(s, n - 1, oldest);
      var front := KeepTo(s, n - 1, oldest);
      forall i | 0 <= i < |front|
        ensures KeyOf(front[i]) < KeyOf(s[n - 1])
      {
        KeepMembers(s, n - 1, oldest, front[i]);
      }
    }
  }

  // Nothing is lost and nothing is invented.
  lemma {:induction false} MergeMembers(a: seq<Item>, n: nat, b: seq<Item>, m: nat, it: Item)
    requires n <= |a| && m <= |b|
    ensures it in MergeTo(a, n, b, m) <==> it in a[..n] || it in b[..m]
    decreases n + m
  {
    if n > 0 && m > 0 {
      if KeyOf(b[m - 1]) > KeyOf(a[n - 1]) {
        MergeMembers(a, n, b, m - 1, it);
        assert b[..m] == b[..m - 1] + [b[m - 1]];
      } else {
        MergeMembers(a, n - 1, b, m, it);
        assert a[..n] == a[..n - 1] + [a[n - 1]];
      }
    }
  }

  ghost predicate KeysDiffer(a: seq<Item>, b: seq<Item>) {
    forall i, j :: 0 <= i < |a| && 0 <= j < |b| ==> KeyOf(a[i]) != KeyOf(b[j])
  }

  lemma {:induction false} MergeSorted(a: seq<Item>, n: nat, b: seq<Item>, m: nat)
    requires n <= |a| && m <= |b| && SortedKeys(a) && SortedKeys(b) && KeysDiffer(a, b)
    ensures SortedKeys(MergeTo(a, n, b, m))
    decreases n + m
  {
    if n > 0 && m > 0 {
      var x, y := KeyOf(b[m - 1]), KeyOf(a[n - 1]);
      if x > y {
        MergeSorted(a, n, b, m - 1);
        MergeBelow(a, n, b, m - 1, x);
      } else {
        MergeSorted(a, n - 1, b, m);
        MergeBelow(a, n - 1, b, m, y);
      }
    }
  }

  lemma MergeBelow(a: seq<Item>, n: nat, b: seq<Item>, m: nat, k: nat)
    requires n <= |a| && m <= |b|
    requires (forall i :: 0 <= i < n ==> KeyOf(a[i]) < k) && (forall j :: 0 <= j < m ==> KeyOf(b[j]) < k)
    ensures forall i :: 0 <= i < n + m ==> KeyOf(MergeTo(a, n, b, m)[i]) < k
  {
    forall i | 0 <= i < n + m
      ensures KeyOf(MergeTo(a, n, b, m)[i]) < k
    {
      MergeMembers(a, n, b, m, MergeTo(a, n, b, m)[i]);
    }
  }

  // What is left to merge is the front of the result r.
  ghost predicate Fronts(r: seq<Item>, a: seq<Item>, n: int, b: seq<Item>, m: int)
    decreases n + m
  {
    && 0 <= n <= |a| && 0 <= m <= |b| && n + m <= |r|
    && if m == 0 then (forall i :: 0 <= i < n ==> r[i] == a[i])
       else if n == 0 then (forall i :: 0 <= i < m ==> r[i] == b[i])
       else if KeyOf(b[m - 1]) > KeyOf(a[n - 1]) then r[n + m - 1] == b[m - 1] && Fronts(r, a, n, b, m - 1)
       else r[n + m - 1] == a[n - 1] && Fronts(r, a, n - 1, b, m)
  }

  lemma {:induction false} MergeFronts(r: seq<Item>, a: seq<Item>, n: nat, b: seq<Item>, m: nat)
    requires n <= |a| && m <= |b| && n + m <= |r|
    requires forall i :: 0 <= i < n + m ==> r[i] == MergeTo(a, n, b, m)[i]
    ensures Fronts(r, a, n, b, m)
    decreases n + m
  {
    if n > 0 && m > 0 {
      if KeyOf(b[m - 1]) > KeyOf(a[n - 1]) {
        MergeFronts(r, a, n, b, m - 1);
      } else {
        MergeFronts(r, a, n - 1, b, m);
      }
    }
  }
}
