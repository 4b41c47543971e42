// The reference meaning of one vertex's adjacency: for every epoch, the writes made in it,
// in write order. Everything the versioned layout reports is measured against this.
module History {
  import opened Basics

  const INTRA_MAX: nat := 0xffff_ffff

  // One insertion or overwrite (del == false), or one deletion, of the edge to `key`.
  datatype Write = Write(key: nat, del: bool, weight: nat, intra: nat)

  type Log = map<nat, seq<Write>>

  // The index of the last write to k, or -1.
  function LastIn(ws: seq<Write>, k: nat): (i: int)
    ensures -1 <= i < |ws|
    ensures i >= 0 ==> ws[i].key == k
    ensures forall j :: i < j < |ws| ==> ws[j].key != k
  {
    if ws == [] then -1
    else if ws[|ws| - 1].key == k then |ws| - 1
    else
      var i := LastIn(ws[..|ws| - 1], k);
      assert forall j :: i < j < |ws| - 1 ==> ws[..|ws| - 1][j] == ws[j];
      i
  }

  function WritesOf(h: Log, t: nat): seq<Write> {
    if t in h then h[t] else []
  }

  predicate WrittenAt(h: Log, t: nat, k: nat) {
    LastIn(WritesOf(h, t), k) >= 0
  }

  // The newest epoch up to t in which k was written, or 0.
  function LastEpoch(h: Log, t: nat, k: nat): (l: nat)
    ensures l <= t
    ensures l > 0 ==> WrittenAt(h, l, k)
    ensures forall u :: l < u <= t ==> !WrittenAt(h, u, k)
  {
    if t == 0 then 0 else if WrittenAt(h, t, k) then t else LastEpoch(h, t - 1, k)
  }

  function LastWrite(h: Log, t: nat, k: nat): (w: Write)
    requires WrittenAt(h, t, k)
    ensures w.key == k
  {
    WritesOf(h, t)[LastIn(WritesOf(h, t), k)]
  }

  // The edge to k exists at the end of epoch t.
  predicate Live(h: Log, t: nat, k: nat) {
    LastEpoch(h, t, k) > 0 && !LastWrite(h, LastEpoch(h, t, k), k).del
  }

  function WeightAt(h: Log, t: nat, k: nat): nat
    requires Live(h, t, k)
  {
    LastWrite(h, LastEpoch(h, t, k), k).weight
  }

  function Append(h: Log, t: nat, w: Write): Log {
    h[t := WritesOf(h, t) + [w]]
  }

  ghost predicate WellFormed(h: Log) {
    forall t :: t in h ==> 1 <= t < TMPVB_MASK && h[t] != [] && WellFormedWrites(h[t])
  }

  ghost predicate WellFormedWrites(ws: seq<Write>) {
    forall i :: 0 <= i < |ws| ==> ws[i].key < DELETION_MASK && ws[i].intra < INTRA_MAX
  }

  // The stamps of the edge's writes grow in write order inside an epoch.
  ghost predicate Stamped(ws: seq<Write>, k: nat) {
    forall i, j :: 0 <= i < j < |ws| && ws[i].key == k && ws[j].key == k ==> ws[i].intra < ws[j].intra
  }

  // Write i of the epoch inserts an edge that the same epoch has just deleted.
  predicate Reinserts(ws: seq<Write>, i: nat)
    requires i < |ws|
  {
    !ws[i].del && LastIn(ws[..i], ws[i].key) >= 0 && ws[LastIn(ws[..i], ws[i].key)].del
  }

  // ---- How the history moves ----

  lemma LastInSnoc(ws: seq<Write>, w: Write, k: nat)
    ensures LastIn(ws + [w], k) == if w.key == k then |ws| else LastIn(ws, k)
  {
    assert (ws + [w])[..|ws|] == ws;
  }

  lemma LastEpochIs(h: Log, t: nat, k: nat, l: nat)
    requires l <= t && (l > 0 ==> WrittenAt(h, l, k))
    requires forall u :: l < u <= t ==> !WrittenAt(h, u, k)
    ensures LastEpoch(h, t, k) == l
  {
  }

  // A write changes only its own key, and nothing before its own epoch.
  lemma AppendElsewhere(h: Log, e: nat, w: Write, t: nat, k: nat)
    requires k != w.key || t < e
    ensures LastEpoch(Append(h, e, w), t, k) == LastEpoch(h, t, k)
    ensures forall u :: 0 < u <= t ==> (WrittenAt(Append(h, e, w), u, k) <==> WrittenAt(h, u, k))
    ensures forall u :: 0 < u <= t && WrittenAt(h, u, k) ==>
              LastWrite(Append(h, e, w), u, k) == LastWrite(h, u, k)
  {
    var g := Append(h, e, w);
    forall u | 0 < u <= t
      ensures WrittenAt(g, u, k) <==> WrittenAt(h, u, k)
      ensures WrittenAt(h, u, k) ==> LastWrite(g, u, k) == LastWrite(h, u, k)
    {
      if u == e {
        LastInSnoc(WritesOf(h, e), w, k);
      }
    }
    LastEpochIs(g, t, k, LastEpoch(h, t, k));
  }

  // The written key's state is now this write's.
  lemma AppendHere(h: Log, e: nat, w: Write, t: nat)
    requires 0 < e <= t && (forall u :: e < u <= t ==> !WrittenAt(h, u, w.key))
    ensures LastEpoch(Append(h, e, w), t, w.key) == e
    ensures LastIn(WritesOf(Append(h, e, w), e), w.key) == |WritesOf(h, e)|
    ensures LastWrite(Append(h, e, w), e, w.key) == w
  {
    var g := Append(h, e, w);
    LastInSnoc(WritesOf(h, e), w, w.key);
    forall u | e < u <= t
      ensures !WrittenAt(g, u, w.key)
    {
      assert WritesOf(g, u) == WritesOf(h, u);
      assert !WrittenAt(h, u, w.key);
    }
    LastEpochIs(g, t, w.key, e);
  }
}
