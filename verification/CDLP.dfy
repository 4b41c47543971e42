// Community detection by label propagation (algorithm/CDLP.cpp), on one thread. The update is the
// synchronous one of section 2.3.4 of the LDBC Graphalytics specification.
module CDLP {
  import opened Sorting

  // ---- The reference ----

  function Count(ls: seq<nat>, x: nat): nat {
    multiset(ls)[x]
  }

  // The most frequent label, the smallest one among equally frequent ones.
  ghost predicate IsMode(ls: seq<nat>, m: nat) {
    m in ls && forall x :: x in ls ==> Count(ls, x) < Count(ls, m) || (Count(ls, x) == Count(ls, m) && m <= x)
  }

  lemma ModeIsUnique(ls: seq<nat>, a: nat, b: nat)
    requires IsMode(ls, a) && IsMode(ls, b)
    ensures a == b
  {
  }

  lemma ModeOfSorted(ls: seq<nat>, sorted: seq<nat>, m: nat)
    requires multiset(sorted) == multiset(ls) && IsMode(sorted, m)
    ensures IsMode(ls, m)
  {
    SameMembers(ls, sorted);
  }

  // ---- The run-length scan ----

  // No run crosses position i.
  ghost predicate Boundary(s: seq<nat>, i: nat) {
    i <= |s| && forall a, b :: 0 <= a < i <= b < |s| ==> s[a] < s[b]
  }

  lemma {:induction false} ConstantCount(s: seq<nat>, x: nat)
    requires forall a :: 0 <= a < |s| ==> s[a] == x
    ensures Count(s, x) == |s|
  {
    if s != [] {
      assert s == s[..|s| - 1] + [x];
      ConstantCount(s[..|s| - 1], x);
    }
  }

  // A run between two boundaries holds every copy of its label.
  lemma RunCount(s: seq<nat>, i: nat, j: nat)
    requires i < j <= |s| && Boundary(s, i) && Boundary(s, j) && forall a :: i <= a < j ==> s[a] == s[i]
    ensures Count(s, s[i]) == j - i
  {
    var x := s[i];
    assert s == s[..i] + s[i..j] + s[j..];
    ConstantCount(s[i..j], x);
    assert x !in s[..i] && x !in s[j..];
    assert multiset(s)[x] == multiset(s[..i])[x] + multiset(s[i..j])[x] + multiset(s[j..])[x];
  }

  // best and bestCount are right for the first i labels.
  ghost predicate BestOf(s: seq<nat>, i: nat, best: nat, bestCount: nat) {
    && i <= |s|
    && (i == 0 ==> bestCount == 0)
    && (i > 0 ==> bestCount > 0 && bestCount == Count(s, best) && best in s[..i])
    && forall a :: 0 <= a < i ==> Count(s, s[a]) < bestCount || (Count(s, s[a]) == bestCount && best <= s[a])
  }

  lemma NextRun(s: seq<nat>, i: nat, j: nat, best: nat, bestCount: nat)
    requires i < j <= |s| && Boundary(s, i) && Boundary(s, j) && forall a :: i <= a < j ==> s[a] == s[i]
    requires BestOf(s, i, best, bestCount)
    ensures if j - i > bestCount then BestOf(s, j, s[i], j - i) else BestOf(s, j, best, bestCount)
  {
    RunCount(s, i, j);
    assert s[..j][i] == s[i];
    assert i > 0 ==> best in s[..i] && s[..i] <= s[..j];
    if i > 0 && j - i <= bestCount {
      var a :| 0 <= a < i && s[..i][a] == best;
      assert s[..j][a] == best;
    }
  }

  lemma BestIsMode(s: seq<nat>, best: nat, bestCount: nat)
    requires s != [] && BestOf(s, |s|, best, bestCount)
    ensures IsMode(s, best)
  {
    assert s[..|s|] == s;
    forall x | x in s
      ensures Count(s, x) < bestCount || (Count(s, x) == bestCount && best <= x)
    {
      var a :| 0 <= a < |s| && s[a] == x;
    }
  }

  // The scan of one vertex's sorted neighbour labels.
  method BestLabel(s: seq<nat>) returns (best: nat)
    requires s != [] && Ascending(s)
    ensures IsMode(s, best)
  {
    best := s[0];
    var bestCount: nat, i: nat := 0, 0;
    while i < |s|
      invariant 0 <= i <= |s| && Boundary(s, i) && BestOf(s, i, best, bestCount)
      decreases |s| - i
    {
      var j := i;
      while j < |s| && s[j] == s[i]
        invariant i <= j <= |s| && forall a :: i <= a < j ==> s[a] == s[i]
      {
        j := j + 1;
      }
      RunEnds(s, i, j);
      NextRun(s, i, j, best, bestCount);
      if j - i > bestCount {
        bestCount := j - i;
        best := s[i];
      }
      i := j;
    }
    BestIsMode(s, best, bestCount);
  }

  lemma RunEnds(s: seq<nat>, i: nat, j: nat)
    requires Ascending(s) && Boundary(s, i) && i < j <= |s| && (forall a :: i <= a < j ==> s[a] == s[i])
    requires j < |s| ==> s[j] != s[i]
    ensures Boundary(s, j)
  {
    forall a, b | 0 <= a < j <= b < |s|
      ensures s[a] < s[b]
    {
      assert s[i] <= s[j] <= s[b];
    }
  }

  // ---- The iteration ----

  // What the store reports: dense ids, a degree that may overcount, and the neighbours.
  datatype Input = Input(ids: seq<nat>, degree: seq<nat>, nbrs: seq<seq<nat>>)

  // The code reads the first neighbour of every vertex of non-zero degree. The store does not promise
  // that there is one: an overwrite counted in the degree outlives its edge.
  ghost predicate Proper(g: Input) {
    && |g.degree| == |g.ids| == |g.nbrs|
    && (forall v, i :: 0 <= v < |g.nbrs| && 0 <= i < |g.nbrs[v]| ==> g.nbrs[v][i] < |g.ids|)
    && forall v :: 0 <= v < |g.nbrs| && g.degree[v] != 0 ==> g.nbrs[v] != []
  }

  function LabelsOf(labels: seq<nat>, vs: seq<nat>): (r: seq<nat>)
    requires forall i :: 0 <= i < |vs| ==> vs[i] < |labels|
    ensures |r| == |vs|
  {
    seq(|vs|, i requires 0 <= i < |vs| => labels[vs[i]])
  }

  // x is v's label after one synchronous update of labels.
  ghost predicate Updates(g: Input, labels: seq<nat>, v: nat, x: nat)
    requires Proper(g) && |labels| == |g.ids| && v < |g.ids|
  {
    if g.degree[v] == 0 then x == labels[v] else IsMode(LabelsOf(labels, g.nbrs[v]), x)
  }

  ghost predicate IsUpdate(g: Input, labels: seq<nat>, next: seq<nat>)
    requires Proper(g) && |labels| == |g.ids|
  {
    |next| == |labels| && forall v :: 0 <= v < |labels| ==> Updates(g, labels, v, next[v])
  }

  lemma UpdateIsUnique(g: Input, labels: seq<nat>, a: seq<nat>, b: seq<nat>)
    requires Proper(g) && |labels| == |g.ids| && IsUpdate(g, labels, a) && IsUpdate(g, labels, b)
    ensures a == b
  {
    forall v | 0 <= v < |labels|
      ensures a[v] == b[v]
    {
      assert Updates(g, labels, v, a[v]) && Updates(g, labels, v, b[v]);
      if g.degree[v] != 0 {
        ModeIsUnique(LabelsOf(labels, g.nbrs[v]), a[v], b[v]);
      }
    }
  }

  // labels are what k synchronous updates make of the vertices' own ids.
  ghost predicate After(g: Input, k: nat, labels: seq<nat>)
    requires Proper(g)
    decreases k
  {
    if k == 0 then labels == g.ids
    else exists before {:trigger After(g, k - 1, before)} ::
           |before| == |g.ids| && After(g, k - 1, before) && IsUpdate(g, before, labels)
  }

  lemma NextUpdate(g: Input, k: nat, before: seq<nat>, labels: seq<nat>)
    requires Proper(g) && |before| == |g.ids| && After(g, k, before) && IsUpdate(g, before, labels)
    ensures After(g, k + 1, labels)
  {
    assert After(g, k + 1 - 1, before);
  }

  lemma {:induction false} AfterIsUnique(g: Input, k: nat, a: seq<nat>, b: seq<nat>)
    requires Proper(g) && After(g, k, a) && After(g, k, b)
    ensures a == b
  {
    if k > 0 {
      var x :| |x| == |g.ids| && After(g, k - 1, x) && IsUpdate(g, x, a);
      var y :| |y| == |g.ids| && After(g, k - 1, y) && IsUpdate(g, y, b);
      AfterIsUnique(g, k - 1, x, y);
      UpdateIsUnique(g, x, a, b);
    }
  }

  // Labels that an update leaves alone stay for ever, so stopping early changes nothing.
  lemma {:induction false} SettledStays(g: Input, k: nat, m: nat, labels: seq<nat>)
    requires Proper(g) && |labels| == |g.ids| && After(g, k, labels) && IsUpdate(g, labels, labels) && k <= m
    ensures After(g, m, labels)
  {
    if k < m {
      SettledStays(g, k, m - 1, labels);
    }
  }

  // One vertex of the parallel loop.
  method NewLabel(g: Input, labels: array<nat>, v: nat) returns (x: nat)
    requires Proper(g) && labels.Length == |g.ids| && v < |g.ids|
    ensures Updates(g, labels[..], v, x)
  {
    if g.degree[v] == 0 {
      return labels[v];
    }
    var nbrLabels := LabelsOf(labels[..], g.nbrs[v]);
    var sorted := Sort(nbrLabels);
    SameMembers(nbrLabels, sorted);
    x := BestLabel(sorted);
    ModeOfSorted(nbrLabels, sorted, x);
  }

  method Sweep(g: Input, labels: array<nat>, next: array<nat>) returns (changed: bool)
    requires Proper(g) && labels.Length == next.Length == |g.ids| && labels != next
    modifies next
    ensures IsUpdate(g, labels[..], next[..])
    ensures changed <==> next[..] != labels[..]
  {
    changed := false;
    for v := 0 to |g.ids|
      invariant forall u :: 0 <= u < v ==> Updates(g, labels[..], u, next[u])
      invariant changed <==> exists u :: 0 <= u < v && next[u] != labels[u]
      invariant labels[..] == old(labels[..])
    {
      var x := NewLabel(g, labels, v);
      if x != labels[v] {
        changed := true;
      }
      next[v] := x;
    }
    assert changed ==> exists u :: 0 <= u < |g.ids| && next[..][u] != labels[..][u];
  }

  // compute_cdlp: exactly maxIterations synchronous updates, though it stops once nothing changes.
  method ComputeCdlp(g: Input, maxIterations: nat) returns (labels: array<nat>)
    requires Proper(g)
    ensures labels.Length == |g.ids| && After(g, maxIterations, labels[..])
    ensures forall other {:trigger After(g, maxIterations, other)} :: After(g, maxIterations, other) ==>
              other == labels[..]
  {
    labels := new nat[|g.ids|](v requires 0 <= v < |g.ids| => g.ids[v]);
    assert labels[..] == g.ids;
    var next := new nat[|g.ids|];
    var changed, iter := true, 0;
    while iter < maxIterations && changed
      invariant iter <= maxIterations && fresh(labels) && fresh(next) && labels != next
      invariant labels.Length == next.Length == |g.ids|
      invariant After(g, iter, labels[..])
      invariant !changed ==> IsUpdate(g, labels[..], labels[..])
    {
      ghost var before := labels[..];
      changed := Sweep(g, labels, next);
      NextUpdate(g, iter, before, next[..]);
      labels, next := next, labels;
      iter := iter + 1;
    }
    if iter < maxIterations {
      SettledStays(g, iter, maxIterations, labels[..]);
    }
    forall other | After(g, maxIterations, other)
      ensures other == labels[..]
    {
      AfterIsUnique(g, maxIterations, other, labels[..]);
    }
  }
}
