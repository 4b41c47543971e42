// The executable form of the dual-grained (epoch, intra) semantics in test/test_avb_fine.cpp:
// FineDriver collects an epoch's writes and publishes them, read_fine reads at any composite time.
module FineMvcc {
  import opened Basics

  datatype Composite = Composite(e: nat, i: nat)

  predicate Less(a: Composite, b: Composite) {
    a.e < b.e || (a.e == b.e && a.i < b.i)
  }

  predicate AtMost(a: Composite, b: Composite) {
    Less(a, b) || a == b
  }

  datatype FGEdge = FGEdge(dst: nat, block: nat, intraC: nat, weight: nat, predIdx: nat, inv: nat)

  function Coarse(block: nat): nat {
    if (block / TMPVB_MASK) % 2 == 1 then block - TMPVB_MASK else block
  }

  function Created(e: FGEdge): Composite {
    Composite(Coarse(e.block), e.intraC)
  }

  // DELETION_MASK is 1 << 61 here.
  predicate Masked(d: nat) {
    (d / 0x2000_0000_0000_0000) % 2 == 1
  }

  // prev is implicit: the chain holds the blocks oldest first.
  datatype FGVB = FGVB(ts: nat, recs: seq<FGEdge>)
  datatype TE = TE(d: nat, w: nat, ic: nat)

  // ---- The reference: the published writes in order ----

  datatype Published = Published(d: nat, w: nat, at: Composite)

  ghost predicate Precedes(log: seq<Published>, i: nat, j: nat) {
    i < j < |log| ==> Less(log[i].at, log[j].at)
  }

  ghost predicate InOrder(log: seq<Published>) {
    forall i, j {:trigger Precedes(log, i, j)} :: Precedes(log, i, j)
  }

  // The last of the first n writes to go to d, or -1.
  function LastIdx(log: seq<Published>, n: nat, d: nat): (i: int)
    requires n <= |log|
    ensures -1 <= i < n && (i >= 0 ==> log[i].d == d)
    ensures forall j :: i < j < n ==> log[j].d != d
  {
    if n == 0 then -1 else if log[n - 1].d == d then n - 1 else LastIdx(log, n - 1, d)
  }

  // The last write to d strictly before tr, or -1.
  function LastBefore(log: seq<Published>, n: nat, d: nat, tr: Composite): (i: int)
    requires n <= |log|
    ensures -1 <= i < n && (i >= 0 ==> log[i].d == d && Less(log[i].at, tr))
    ensures forall j :: i < j < n && log[j].d == d ==> !Less(log[j].at, tr)
  {
    if n == 0 then -1
    else if log[n - 1].d == d && Less(log[n - 1].at, tr) then n - 1
    else LastBefore(log, n - 1, d, tr)
  }

  function Want(log: seq<Published>, d: nat, tr: Composite): Option<nat> {
    var i := LastBefore(log, |log|, d, tr);
    if Masked(d) || i < 0 then None else Some(log[i].w)
  }

  // ---- What the structure holds of it ----

  function HeadOf(p: Published): FGEdge {
    FGEdge(p.d, p.at.e, p.at.i, p.w, 0, 0)
  }

  // The version that write j displaced.
  function RecordFor(log: seq<Published>, j: nat): FGEdge
    requires j < |log| && LastIdx(log, j, log[j].d) >= 0
  {
    var p := log[LastIdx(log, j, log[j].d)];
    FGEdge(p.d, p.at.e, p.at.i, p.w, 0, log[j].at.i)
  }

  function RecordsFor(log: seq<Published>, lo: nat, hi: nat): seq<FGEdge>
    requires lo <= hi <= |log|
  {
    if lo == hi then []
    else if LastIdx(log, hi - 1, log[hi - 1].d) >= 0 then RecordsFor(log, lo, hi - 1) + [RecordFor(log, hi - 1)]
    else RecordsFor(log, lo, hi - 1)
  }

  ghost predicate Displaced(log: seq<Published>, j: nat, ts: nat, rec: FGEdge) {
    j < |log| && log[j].at.e == ts && LastIdx(log, j, log[j].d) >= 0 && rec == RecordFor(log, j)
  }

  ghost predicate Accounted(log: seq<Published>, ts: nat, rec: FGEdge) {
    exists j: nat {:trigger Displaced(log, j, ts, rec)} :: Displaced(log, j, ts, rec)
  }

  ghost predicate AllAccounted(log: seq<Published>, vb: FGVB) {
    forall m :: 0 <= m < |vb.recs| ==> Accounted(log, vb.ts, vb.recs[m])
  }

  ghost predicate Kept(log: seq<Published>, chain: seq<FGVB>, j: nat) {
    j < |log| && LastIdx(log, j, log[j].d) >= 0 ==>
      exists b, m :: 0 <= b < |chain| && 0 <= m < |chain[b].recs| && chain[b].ts == log[j].at.e &&
          chain[b].recs[m] == RecordFor(log, j)
  }

  ghost predicate HeadsOk(log: seq<Published>, n: nat, pa: map<nat, FGEdge>)
    requires n <= |log|
  {
    forall d {:trigger d in pa} {:trigger LastIdx(log, n, d)} ::
      (d in pa <==> LastIdx(log, n, d) >= 0) && (d in pa ==> pa[d] == HeadOf(log[LastIdx(log, n, d)]))
  }

  ghost predicate LogOk(log: seq<Published>) {
    InOrder(log) && forall i :: 0 <= i < |log| ==> 1 <= log[i].at.e < TMPVB_MASK
  }

  ghost predicate Consistent(log: seq<Published>, pa: map<nat, FGEdge>, chain: seq<FGVB>) {
    && LogOk(log) && HeadsOk(log, |log|, pa)
    && (forall b {:trigger AllAccounted(log, chain[b])} :: 0 <= b < |chain| ==> AllAccounted(log, chain[b]))
    && (forall j {:trigger Kept(log, chain, j)} :: Kept(log, chain, j))
  }

  lemma {:induction false} LastIdxStable(log: seq<Published>, more: seq<Published>, n: nat, d: nat)
    requires n <= |log| && log <= more
    ensures LastIdx(more, n, d) == LastIdx(log, n, d)
  {
    if n > 0 {
      LastIdxStable(log, more, n - 1, d);
    }
  }

  lemma DisplacedStable(log: seq<Published>, more: seq<Published>, j: nat, ts: nat, rec: FGEdge)
    requires Displaced(log, j, ts, rec) && log <= more
    ensures Displaced(more, j, ts, rec)
  {
    LastIdxStable(log, more, j, log[j].d);
  }

  // ---- Reading ----

  predicate HeadSeen(e: FGEdge, tr: Composite) {
    !Masked(e.dst) && Less(Created(e), tr)
  }

  // Created strictly before tr and not yet invalidated at tr.
  predicate RecordSeen(e: FGEdge, ts: nat, tr: Composite) {
    !Masked(e.dst) && Less(Created(e), tr) && AtMost(tr, Composite(ts, e.inv))
  }

  lemma SeenHeadIsWanted(log: seq<Published>, pa: map<nat, FGEdge>, d: nat, tr: Composite)
    requires LogOk(log) && HeadsOk(log, |log|, pa) && d in pa
    ensures pa[d].dst == d && (HeadSeen(pa[d], tr) ==> Want(log, d, tr) == Some(pa[d].weight))
  {
    var i := LastIdx(log, |log|, d);
    assert log[i].d == d;
  }

  lemma SeenRecordIsWanted(log: seq<Published>, j: nat, ts: nat, rec: FGEdge, tr: Composite)
    requires LogOk(log) && Displaced(log, j, ts, rec) && RecordSeen(rec, ts, tr)
    ensures Want(log, rec.dst, tr) == Some(rec.weight)
  {
    var i := LastIdx(log, j, log[j].d);
    assert log[i].d == rec.dst && Less(log[i].at, tr);
    forall k | j <= k < |log|
      ensures !Less(log[k].at, tr)
    {
      assert Precedes(log, j, k);
    }
  }

  // The next write to the same destination.
  lemma NextWrite(log: seq<Published>, i: nat) returns (j: nat)
    requires i < |log| && LastIdx(log, |log|, log[i].d) > i
    ensures i < j < |log| && log[j].d == log[i].d && LastIdx(log, j, log[j].d) == i
  {
    j := i + 1;
    while log[j].d != log[i].d
      invariant i < j < |log| && forall x :: i < x < j ==> log[x].d != log[i].d
      decreases |log| - j
    {
      j := j + 1;
    }
  }

  lemma WantedIsSeen(log: seq<Published>, pa: map<nat, FGEdge>, chain: seq<FGVB>, d: nat, tr: Composite)
    requires Consistent(log, pa, chain) && Want(log, d, tr).Some?
    ensures || (d in pa && HeadSeen(pa[d], tr))
            || (exists b, m :: 0 <= b < |chain| && 0 <= m < |chain[b].recs| && chain[b].recs[m].dst == d
                               && RecordSeen(chain[b].recs[m], chain[b].ts, tr))
  {
    var i := LastBefore(log, |log|, d, tr);
    if LastIdx(log, |log|, d) > i {
      var j := NextWrite(log, i);
      assert Kept(log, chain, j);
    } else {
      assert LastIdx(log, |log|, d) == i;
    }
  }

  lemma Displacer(log: seq<Published>, ts: nat, rec: FGEdge, tr: Composite) returns (j: nat)
    requires LogOk(log) && Accounted(log, ts, rec) && RecordSeen(rec, ts, tr)
    ensures Displaced(log, j, ts, rec) && log[j].d == rec.dst
    ensures Less(log[LastIdx(log, j, rec.dst)].at, tr) && AtMost(tr, log[j].at)
  {
    j :| Displaced(log, j, ts, rec);
  }

  // A later displacement takes over a version created at the earlier one or after.
  lemma LaterDisplacement(log: seq<Published>, d: nat, tr: Composite, j: nat, k: nat)
    requires LogOk(log) && j < k < |log| && log[j].d == d == log[k].d && AtMost(tr, log[j].at)
    ensures LastIdx(log, k, d) >= j && !Less(log[LastIdx(log, k, d)].at, tr)
  {
    assert LastIdx(log, k, d) >= j;
    assert Precedes(log, j, LastIdx(log, k, d));
  }

  // Time is partitioned: whatever the reader's time, the head and the records of a destination
  // offer it at most one version; WantedIsSeen says they offer one once there is one.
  lemma OneVersionAtATime(log: seq<Published>, pa: map<nat, FGEdge>, ts: nat, rec: FGEdge, ts': nat, rec': FGEdge,
                          tr: Composite)
    requires LogOk(log) && HeadsOk(log, |log|, pa)
    requires Accounted(log, ts, rec) && Accounted(log, ts', rec') && rec.dst == rec'.dst
    requires RecordSeen(rec, ts, tr)
    ensures rec.dst in pa && !HeadSeen(pa[rec.dst], tr)
    ensures RecordSeen(rec', ts', tr) ==> rec == rec' && ts == ts'
  {
    var j := Displacer(log, ts, rec, tr);
    var last := LastIdx(log, |log|, rec.dst);
    assert j <= last && log[last].d == rec.dst && Precedes(log, j, last);
    if RecordSeen(rec', ts', tr) {
      var k := Displacer(log, ts', rec', tr);
      if j < k {
        LaterDisplacement(log, rec.dst, tr, j, k);
      } else if k < j {
        LaterDisplacement(log, rec.dst, tr, k, j);
      }
    }
  }

  // Every entry of r is what the history calls for.
  ghost predicate Right(log: seq<Published>, tr: Composite, r: map<nat, nat>) {
    forall d :: d in r ==> Want(log, d, tr) == Some(r[d])
  }

  // r covers the block's visible records.
  ghost predicate Covers(r: map<nat, nat>, vb: FGVB, n: nat, tr: Composite) {
    forall m :: 0 <= m < n && m < |vb.recs| && RecordSeen(vb.recs[m], vb.ts, tr) ==> vb.recs[m].dst in r
  }

  // read_fine: exact at every composite time.
  method ReadFine(pa: map<nat, FGEdge>, chain: seq<FGVB>, tr: Composite, ghost log: seq<Published>)
    returns (r: map<nat, nat>)
    requires Consistent(log, pa, chain)
    ensures forall d :: (d in r <==> Want(log, d, tr).Some?) && (d in r ==> r[d] == Want(log, d, tr).value)
  {
    r := ReadHeads(pa, tr, log);
    var b := |chain|;
    while b > 0
      invariant 0 <= b <= |chain| && Right(log, tr, r)
      invariant forall d :: d in pa && HeadSeen(pa[d], tr) ==> d in r
      invariant CoversFrom(r, chain, b, tr)
    {
      b := b - 1;
      assert AllAccounted(log, chain[b]);
      ghost var before := r;
      r := ReadBlock(chain[b], tr, r, log);
      CoversMore(before, r, chain, b, tr);
    }
    AllCovered(log, pa, chain, tr, r);
  }

  // r covers the blocks from b on.
  ghost predicate CoversFrom(r: map<nat, nat>, chain: seq<FGVB>, b: nat, tr: Composite) {
    forall c {:trigger chain[c]} :: b <= c < |chain| ==> Covers(r, chain[c], |chain[c].recs|, tr)
  }

  lemma CoversMore(before: map<nat, nat>, r: map<nat, nat>, chain: seq<FGVB>, b: nat, tr: Composite)
    requires b < |chain| && CoversFrom(before, chain, b + 1, tr) && Covers(r, chain[b], |chain[b].recs|, tr)
    requires forall d :: d in before ==> d in r
    ensures CoversFrom(r, chain, b, tr)
  {
    forall c | b < c < |chain|
      ensures Covers(r, chain[c], |chain[c].recs|, tr)
    {
      assert Covers(before, chain[c], |chain[c].recs|, tr);
    }
  }

  lemma AllCovered(log: seq<Published>, pa: map<nat, FGEdge>, chain: seq<FGVB>, tr: Composite, r: map<nat, nat>)
    requires Consistent(log, pa, chain)
    requires forall d :: d in pa && HeadSeen(pa[d], tr) ==> d in r
    requires CoversFrom(r, chain, 0, tr)
    ensures forall d :: Want(log, d, tr).Some? ==> d in r
  {
    forall d | Want(log, d, tr).Some?
      ensures d in r
    {
      WantedIsSeen(log, pa, chain, d, tr);
    }
  }

  method ReadHeads(pa: map<nat, FGEdge>, tr: Composite, ghost log: seq<Published>) returns (r: map<nat, nat>)
    requires LogOk(log) && HeadsOk(log, |log|, pa)
    ensures Right(log, tr, r)
    ensures forall d :: d in pa && HeadSeen(pa[d], tr) ==> d in r
  {
    r := map[];
    var todo := pa.Keys;
    while todo != {}
      invariant todo <= pa.Keys && Right(log, tr, r)
      invariant forall d :: d in pa && d !in todo && HeadSeen(pa[d], tr) ==> d in r
      decreases |todo|
    {
      var d :| d in todo;
      SeenHeadIsWanted(log, pa, d, tr);
      if HeadSeen(pa[d], tr) {
        r := r[d := pa[d].weight];
      }
      todo := todo - {d};
    }
  }

  method ReadBlock(vb: FGVB, tr: Composite, before: map<nat, nat>, ghost log: seq<Published>) returns (r: map<nat, nat>)
    requires LogOk(log) && AllAccounted(log, vb) && Right(log, tr, before)
    ensures Right(log, tr, r) && Covers(r, vb, |vb.recs|, tr)
    ensures forall d :: d in before ==> d in r
  {
    r := before;
    for i := 0 to |vb.recs|
      invariant Right(log, tr, r) && Covers(r, vb, i, tr)
      invariant forall d :: d in before ==> d in r
    {
      var e := vb.recs[i];
      if RecordSeen(e, vb.ts, tr) && e.dst !in r {
        assert Accounted(log, vb.ts, e);
        ghost var j: nat :| Displaced(log, j, vb.ts, e);
        SeenRecordIsWanted(log, j, vb.ts, e, tr);
        r := r[e.dst := e.weight];
      }
    }
  }

  // ---- Publishing ----

  // The first n collected writes, stamped with the epoch they are published in.
  function Batch(tvb: seq<TE>, n: nat, ep: nat): (b: seq<Published>)
    requires n <= |tvb|
    ensures |b| == n
  {
    if n == 0 then [] else Batch(tvb, n - 1, ep) + [Published(tvb[n - 1].d, tvb[n - 1].w, Composite(ep, tvb[n - 1].ic))]
  }

  lemma {:induction false} RecordsStable(log: seq<Published>, more: seq<Published>, lo: nat, hi: nat)
    requires lo <= hi <= |log| && log <= more
    ensures RecordsFor(more, lo, hi) == RecordsFor(log, lo, hi)
  {
    if lo < hi {
      RecordsStable(log, more, lo, hi - 1);
      LastIdxStable(log, more, hi - 1, log[hi - 1].d);
    }
  }

  // One more published write moves its destination's head and leaves the others.
  lemma HeadMoves(log: seq<Published>, p: Published, pa: map<nat, FGEdge>)
    requires HeadsOk(log, |log|, pa)
    ensures HeadsOk(log + [p], |log| + 1, pa[p.d := HeadOf(p)])
  {
    var more := log + [p];
    forall d
      ensures LastIdx(more, |log| + 1, d) == if d == p.d then |log| else LastIdx(log, |log|, d)
    {
      LastIdxStable(log, more, |log|, d);
    }
  }

  lemma LogGrows(log: seq<Published>, p: Published)
    requires LogOk(log) && 1 <= p.at.e < TMPVB_MASK
    requires log != [] ==> Less(log[|log| - 1].at, p.at)
    ensures LogOk(log + [p])
  {
    var more := log + [p];
    forall i: nat, j: nat {:trigger Precedes(more, i, j)}
      ensures Precedes(more, i, j)
    {
      assert Precedes(log, i, j);
      if j == |log| && i < j {
        assert Precedes(log, i, |log| - 1);
      }
    }
  }

  lemma RecordsGrow(log: seq<Published>, p: Published, lo: nat)
    requires lo <= |log|
    ensures var i := LastIdx(log, |log|, p.d);
            RecordsFor(log + [p], lo, |log| + 1) ==
              if i >= 0 then RecordsFor(log, lo, |log|) + [FGEdge(p.d, log[i].at.e, log[i].at.i, log[i].w, 0, p.at.i)]
              else RecordsFor(log, lo, |log|)
  {
    var more := log + [p];
    RecordsStable(log, more, lo, |log|);
    LastIdxStable(log, more, |log|, p.d);
  }

  // Heads and records after the writes `now`, of which the first lo were published before.
  ghost predicate Evolved(now: seq<Published>, lo: nat, cur: map<nat, FGEdge>, vrs: seq<FGEdge>) {
    lo <= |now| && LogOk(now) && HeadsOk(now, |now|, cur) && vrs == RecordsFor(now, lo, |now|)
  }

  lemma CoarseIsBlock(block: nat)
    requires block < TMPVB_MASK
    ensures Coarse(block) == block
  {
  }

  // One write: it records the version it displaces, in this epoch or before it.
  method EvolveOne(t: TE, ep: nat, cur: map<nat, FGEdge>, vrs: seq<FGEdge>, ghost now: seq<Published>, ghost lo: nat)
    returns (next: map<nat, FGEdge>, more: seq<FGEdge>)
    requires Evolved(now, lo, cur, vrs) && 1 <= ep < TMPVB_MASK
    requires now != [] ==> Less(now[|now| - 1].at, Composite(ep, t.ic))
    ensures Evolved(now + [Published(t.d, t.w, Composite(ep, t.ic))], lo, next, more)
  {
    ghost var p := Published(t.d, t.w, Composite(ep, t.ic));
    LogGrows(now, p);
    HeadMoves(now, p, cur);
    RecordsGrow(now, p, lo);
    var ow, oc, oi := 0, 0, 0;
    assert t.d in cur <==> LastIdx(now, |now|, t.d) >= 0;
    if t.d in cur {
      CoarseIsBlock(cur[t.d].block);
      ow, oc, oi := cur[t.d].weight, Coarse(cur[t.d].block), cur[t.d].intraC;
    }
    more := if oc > 0 then vrs + [FGEdge(t.d, oc, oi, ow, 0, t.ic)] else vrs;
    next := cur[t.d := FGEdge(t.d, ep, t.ic, t.w, 0, 0)];
  }

  // The loop of publish.
  method Evolve(tvb: seq<TE>, pa: map<nat, FGEdge>, ep: nat, ghost log: seq<Published>)
    returns (cur: map<nat, FGEdge>, vrs: seq<FGEdge>)
    requires LogOk(log) && HeadsOk(log, |log|, pa) && 1 <= ep < TMPVB_MASK
    requires log != [] ==> log[|log| - 1].at.e < ep
    requires forall i :: 0 <= i < |tvb| ==> tvb[i].ic == i + 1
    ensures Evolved(log + Batch(tvb, |tvb|, ep), |log|, cur, vrs)
  {
    cur, vrs := pa, [];
    assert log + Batch(tvb, 0, ep) == log;
    for i := 0 to |tvb|
      invariant Evolved(log + Batch(tvb, i, ep), |log|, cur, vrs)
    {
      ghost var p := Published(tvb[i].d, tvb[i].w, Composite(ep, tvb[i].ic));
      assert log + Batch(tvb, i + 1, ep) == log + Batch(tvb, i, ep) + [p];
      LatestStamp(log, tvb, i, ep);
      cur, vrs := EvolveOne(tvb[i], ep, cur, vrs, log + Batch(tvb, i, ep), |log|);
    }
  }

  lemma LatestStamp(log: seq<Published>, tvb: seq<TE>, i: nat, ep: nat)
    requires i < |tvb| && forall j :: 0 <= j < |tvb| ==> tvb[j].ic == j + 1
    requires log != [] ==> log[|log| - 1].at.e < ep
    ensures var now := log + Batch(tvb, i, ep);
            now != [] ==> Less(now[|now| - 1].at, Composite(ep, tvb[i].ic))
  {
  }

  lemma {:induction false} RecordsAreDisplaced(log: seq<Published>, lo: nat, hi: nat, m: nat) returns (j: nat)
    requires lo <= hi <= |log| && m < |RecordsFor(log, lo, hi)|
    ensures lo <= j < hi && LastIdx(log, j, log[j].d) >= 0 && RecordsFor(log, lo, hi)[m] == RecordFor(log, j)
  {
    if LastIdx(log, hi - 1, log[hi - 1].d) >= 0 && m == |RecordsFor(log, lo, hi - 1)| {
      j := hi - 1;
    } else {
      j := RecordsAreDisplaced(log, lo, hi - 1, m);
    }
  }

  lemma {:induction false} DisplacedIsRecorded(log: seq<Published>, lo: nat, hi: nat, j: nat) returns (m: nat)
    requires lo <= j < hi <= |log| && LastIdx(log, j, log[j].d) >= 0
    ensures m < |RecordsFor(log, lo, hi)| && RecordsFor(log, lo, hi)[m] == RecordFor(log, j)
  {
    if j == hi - 1 {
      m := |RecordsFor(log, lo, j)|;
    } else {
      m := DisplacedIsRecorded(log, lo, hi - 1, j);
    }
  }

  lemma KeptStable(log: seq<Published>, more: seq<Published>, chain: seq<FGVB>, longer: seq<FGVB>, j: nat)
    requires Kept(log, chain, j) && log <= more && chain <= longer && j < |log|
    ensures Kept(more, longer, j)
  {
    LastIdxStable(log, more, j, log[j].d);
    if LastIdx(log, j, log[j].d) >= 0 {
      var b, m :| 0 <= b < |chain| && 0 <= m < |chain[b].recs| && chain[b].ts == log[j].at.e &&
          chain[b].recs[m] == RecordFor(log, j);
      assert longer[b] == chain[b];
    }
  }

  lemma BlockStable(log: seq<Published>, more: seq<Published>, vb: FGVB)
    requires AllAccounted(log, vb) && log <= more
    ensures AllAccounted(more, vb)
  {
    forall m | 0 <= m < |vb.recs|
      ensures Accounted(more, vb.ts, vb.recs[m])
    {
      var j: nat :| Displaced(log, j, vb.ts, vb.recs[m]);
      DisplacedStable(log, more, j, vb.ts, vb.recs[m]);
    }
  }

  lemma NewBlockAccounted(log: seq<Published>, lo: nat, ep: nat)
    requires lo <= |log| && forall j :: lo <= j < |log| ==> log[j].at.e == ep
    ensures AllAccounted(log, FGVB(ep, RecordsFor(log, lo, |log|)))
  {
    var recs := RecordsFor(log, lo, |log|);
    forall m | 0 <= m < |recs|
      ensures Accounted(log, ep, recs[m])
    {
      var j := RecordsAreDisplaced(log, lo, |log|, m);
      assert Displaced(log, j, ep, recs[m]);
    }
  }

  // Publishing keeps the structure in step with the writes published.
  lemma PublishKeeps(log: seq<Published>, pa: map<nat, FGEdge>, chain: seq<FGVB>,
                     more: seq<Published>, cur: map<nat, FGEdge>, vrs: seq<FGEdge>, ep: nat)
    requires Consistent(log, pa, chain) && log <= more
    requires forall j :: |log| <= j < |more| ==> more[j].at.e == ep
    requires Evolved(more, |log|, cur, vrs)
    ensures Consistent(more, cur, if vrs == [] then chain else chain + [FGVB(ep, vrs)])
  {
    var longer := if vrs == [] then chain else chain + [FGVB(ep, vrs)];
    forall b | 0 <= b < |longer|
      ensures AllAccounted(more, longer[b])
    {
      if b < |chain| {
        assert AllAccounted(log, chain[b]);
        BlockStable(log, more, chain[b]);
      } else {
        NewBlockAccounted(more, |log|, ep);
      }
    }
    forall j: nat {:trigger Kept(more, longer, j)}
      ensures Kept(more, longer, j)
    {
      assert Kept(log, chain, j);
      if j < |log| {
        KeptStable(log, more, chain, longer, j);
      } else if j < |more| && LastIdx(more, j, more[j].d) >= 0 {
        var m := DisplacedIsRecorded(more, |log|, |more|, j);
        assert longer[|chain|].recs[m] == RecordFor(more, j);
      }
    }
  }

  lemma {:induction false} BatchEpochs(tvb: seq<TE>, n: nat, ep: nat)
    requires n <= |tvb|
    ensures forall j :: 0 <= j < n ==> Batch(tvb, n, ep)[j].at.e == ep
  {
    if n > 0 {
      BatchEpochs(tvb, n - 1, ep);
    }
  }

  ghost predicate IndexOk(vbIdx: seq<nat>, chain: seq<FGVB>, last: nat) {
    && |vbIdx| == |chain| && (forall i :: 0 <= i < |chain| ==> vbIdx[i] == chain[i].ts <= last)
    && (forall i, j :: 0 <= i < j < |vbIdx| ==> vbIdx[i] < vbIdx[j])
  }

  lemma IndexGrows(vbIdx: seq<nat>, chain: seq<FGVB>, last: nat, vb: FGVB)
    requires IndexOk(vbIdx, chain, last) && last < vb.ts
    ensures IndexOk(vbIdx, chain, vb.ts) && IndexOk(vbIdx + [vb.ts], chain + [vb], vb.ts)
  {
  }

  class FineDriver {
    var pa: map<nat, FGEdge>
    var chain: seq<FGVB>
    var vbIdx: seq<nat>           // epochs of the blocks, for the search of find_vb
    var tvb: seq<TE>
    var nextIc: nat
    ghost var log: seq<Published>
    ghost var lastEpoch: nat

    ghost predicate Valid()
      reads this
    {
      && Consistent(log, pa, chain)
      && nextIc == |tvb| && (forall i :: 0 <= i < |tvb| ==> tvb[i].ic == i + 1)
      && IndexOk(vbIdx, chain, lastEpoch)
      && (log != [] ==> log[|log| - 1].at.e <= lastEpoch)
    }

    constructor ()
      ensures Valid() && log == [] && tvb == [] && lastEpoch == 0
    {
      pa, chain, vbIdx, tvb, nextIc, log, lastEpoch := map[], [], [], [], 0, [], 0;
    }

    method Write(d: nat, w: nat)
      requires Valid() && nextIc < 0xffff_ffff
      modifies this`tvb, this`nextIc
      ensures Valid() && tvb == old(tvb) + [TE(d, w, |old(tvb)| + 1)]
    {
      nextIc := nextIc + 1;
      tvb := tvb + [TE(d, w, nextIc)];
    }

    // publish: the entries are in stamp order already, so the sort leaves them.
    method Publish(ep: nat)
      requires Valid() && lastEpoch < ep < TMPVB_MASK
      modifies this
      ensures Valid() && tvb == [] && log == old(log) + Batch(old(tvb), |old(tvb)|, ep) && lastEpoch <= ep
    {
      if tvb == [] {
        return;
      }
      var cur, vrs := Evolve(tvb, pa, ep, log);
      ghost var more := log + Batch(tvb, |tvb|, ep);
      BatchEpochs(tvb, |tvb|, ep);
      PublishKeeps(log, pa, chain, more, cur, vrs, ep);
      IndexGrows(vbIdx, chain, lastEpoch, FGVB(ep, vrs));
      if vrs != [] {
        chain := chain + [FGVB(ep, vrs)];
        vbIdx := vbIdx + [ep];
      }
      pa, tvb, nextIc := cur, [], 0;
      log, lastEpoch := more, ep;
    }

    // find_vb: the newest block no younger than ts.
    method FindVb(ts: nat) returns (i: int)
      requires Valid()
      ensures -1 <= i < |chain| && (i >= 0 ==> chain[i].ts <= ts)
      ensures forall j :: i < j < |chain| ==> chain[j].ts > ts
    {
      i := |vbIdx| - 1;
      while i >= 0 && ts < vbIdx[i]
        invariant -1 <= i < |vbIdx|
        invariant forall j :: i < j < |vbIdx| ==> vbIdx[j] > ts
      {
        i := i - 1;
      }
    }

    // What a reader sees at tr: for each unmasked destination the weight of its latest published
    // write strictly before tr, and nothing else.
    method Read(tr: Composite) returns (r: map<nat, nat>)
      requires Valid()
      ensures forall d :: (d in r <==> Want(log, d, tr).Some?) && (d in r ==> r[d] == Want(log, d, tr).value)
    {
      r := ReadFine(pa, chain, tr, log);
    }
  }
}
