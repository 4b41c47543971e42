// std::sort on numbers: the one ascending arrangement of the input.
module Sorting {

  ghost predicate Ascending(s: seq<nat>) {
    forall i, j :: 0 <= i < j < |s| ==> s[i] <= s[j]
  }

  function Insert(x: nat, s: seq<nat>): (r: seq<nat>)
    requires Ascending(s)
    ensures Ascending(r) && multiset(r) == multiset(s) + multiset{x}
    decreases |s|
  {
    if s == [] || x <= s[0] then [x] + s
    else
      var r := Insert(x, s[1..]);
      InsertFront(x, s, r);
      [s[0]] + r
  }

  lemma InsertFront(x: nat, s: seq<nat>, r: seq<nat>)
    requires Ascending(s) && s != [] && s[0] < x && Ascending(r) && multiset(r) == multiset(s[1..]) + multiset{x}
    ensures Ascending([s[0]] + r) && multiset([s[0]] + r) == multiset(s) + multiset{x}
  {
    assert s == [s[0]] + s[1..];
    forall j | 0 <= j < |r|
      ensures s[0] <= r[j]
    {
      assert r[j] in multiset(r);
      if r[j] != x {
        assert r[j] in multiset(s[1..]);
        var i :| 0 <= i < |s[1..]| && s[1..][i] == r[j];
        assert s[0] <= s[i + 1];
      }
    }
  }

  function Sort(s: seq<nat>): (r: seq<nat>)
    ensures Ascending(r) && multiset(r) == multiset(s)
    decreases |s|
  {
    if s == [] then []
    else
      assert s == s[..|s| - 1] + [s[|s| - 1]];
      Insert(s[|s| - 1], Sort(s[..|s| - 1]))
  }

  lemma SameMembers(s: seq<nat>, r: seq<nat>)
    requires multiset(r) == multiset(s)
    ensures |r| == |s| && forall x :: x in r <==> x in s
  {
    assert |multiset(r)| == |multiset(s)|;
    forall x
      ensures x in r <==> x in s
    {
      assert x in r <==> x in multiset(r);
      assert x in s <==> x in multiset(s);
    }
  }

  ghost predicate StrictlyAscending(s: seq<nat>) {
    forall i, j :: 0 <= i < j < |s| ==> s[i] < s[j]
  }

  lemma {:induction false} CountsDistinct(s: seq<nat>, x: nat)
    requires forall i, j :: 0 <= i < j < |s| ==> s[i] != s[j]
    ensures multiset(s)[x] <= 1
  {
    if s != [] {
      assert s == s[..|s| - 1] + [s[|s| - 1]];
      CountsDistinct(s[..|s| - 1], x);
      assert s[|s| - 1] !in s[..|s| - 1];
    }
  }

  lemma StaysDistinct(s: seq<nat>, r: seq<nat>, i: nat, j: nat)
    requires forall a, b :: 0 <= a < b < |s| ==> s[a] != s[b]
    requires multiset(r) == multiset(s) && i < j < |r|
    ensures r[i] != r[j]
  {
    CountsDistinct(s, r[i]);
    if r[i] == r[j] {
      TwiceCounts(r, i, j);
    }
  }

  // Distinct numbers come out in strict order.
  lemma DistinctSortsStrictly(s: seq<nat>)
    requires forall i, j :: 0 <= i < j < |s| ==> s[i] != s[j]
    ensures StrictlyAscending(Sort(s))
  {
    var r := Sort(s);
    forall i, j | 0 <= i < j < |r|
      ensures r[i] < r[j]
    {
      StaysDistinct(s, r, i, j);
    }
  }

  lemma TwiceCounts(r: seq<nat>, i: nat, j: nat)
    requires i < j < |r| && r[i] == r[j]
    ensures multiset(r)[r[i]] >= 2
  {
    var front, back := r[..j], r[j..];
    assert r == front + back;
    assert front[i] in multiset(front) && back[0] in multiset(back);
  }
}
