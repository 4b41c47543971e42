// Whole runs of one vertex, from the empty adjacency: whatever order writes, deletions, publications,
// merges and collections come in, every readable epoch reads as the history says.
module VertexRuns {
  import opened Basics
  import opened History
  import opened VertexState
  import opened VertexReplay
  import opened VertexModel
  import opened VertexSteps
  import opened VertexSnapshot
  import opened VertexDegree

  datatype Op =
    | Insert(k: nat, weight: nat, e: nat, intra: nat, offset: nat, merges: nat, stale: Slot)
    | Remove(k: nat, weight: nat, e: nat, intra: nat, offset: nat, merges: nat)
    | Publish(t: nat, order: seq<nat>)
    | Merge(oldest: nat, gone: set<nat>)
    | Collect(oldest: nat)

  // The vertex, the history of its writes, and the watermark.
  datatype World = World(v: Vertex, h: Log, mark: nat)

  ghost predicate MayDrop(v: Vertex, oldest: nat, gone: set<nat>) {
    forall k :: k in gone ==> k in v.items && Droppable(v.items[k], oldest)
  }

  // What the epoch protocol and the callers guarantee of each operation.
  ghost predicate Allowed(w: World, op: Op) {
    && (op.Insert? ==> MayWrite(w.v, w.h, op.k, op.e, op.intra))
    && (op.Remove? ==>
          MayWrite(w.v, w.h, op.k, op.e, op.intra) && op.k in w.v.items && !IsDelete(w.v.items[op.k].e.word))
    && (op.Publish? ==> MayPublish(w.v, w.h, op.t, op.order))
    && (op.Merge? ==> op.oldest <= w.mark && MayDrop(w.v, op.oldest, op.gone))
    && (op.Collect? ==> w.mark <= op.oldest < TMPVB_MASK)
  }

  // What an operation needs to be carried out at all.
  ghost predicate Possible(w: World, op: Op) {
    && |w.v.tvbs| == 16 && (op.Remove? ==> op.k in w.v.items)
    && (op.Publish? ==> forall a :: 0 <= a < |op.order| ==> op.order[a] < |w.v.tvbs[op.t % 16].entries|)
  }

  ghost function Next(w: World, op: Op): World
    requires Possible(w, op)
  {
    if op.Insert? then
      World(Put(w.v, op.k, op.weight, op.e, op.intra, op.offset, op.merges, op.stale),
            Append(w.h, op.e, Write(op.k, false, op.weight, op.intra)), w.mark)
    else if op.Remove? then
      World(Delete(w.v, op.k, op.weight, op.e, op.intra, op.offset, op.merges),
            Append(w.h, op.e, Write(op.k, true, op.weight, op.intra)), w.mark)
    else if op.Publish? then World(Transform(w.v, op.t, op.order), w.h, w.mark)
    else if op.Merge? then World(Drop(w.v, op.gone), w.h, w.mark)
    else World(w.v, w.h, op.oldest)
  }

  ghost predicate StepTo(w: World, op: Op, next: World) {
    Allowed(w, op) && Possible(w, op) && next == Next(w, op)
  }

  ghost predicate StepAt(run: seq<Op>, worlds: seq<World>, i: nat) {
    i < |run| && i + 1 < |worlds| ==> StepTo(worlds[i], run[i], worlds[i + 1])
  }

  // The run passes through these worlds, from an empty vertex on.
  ghost predicate IsRun(run: seq<Op>, worlds: seq<World>) {
    && |worlds| == |run| + 1 && IsEmpty(worlds[0].v) && worlds[0].h == map[] && worlds[0].mark == 0
    && forall i {:trigger StepAt(run, worlds, i)} :: StepAt(run, worlds, i)
  }

  // The run leads from an empty vertex to w.
  ghost predicate Leads(run: seq<Op>, w: World) {
    exists worlds {:trigger IsRun(run, worlds)} :: IsRun(run, worlds) && worlds[|run|] == w
  }

  lemma StepKeeps(w: World, op: Op)
    requires Inv(w.v, w.h, w.mark) && Allowed(w, op)
    ensures Possible(w, op)
    ensures var n := Next(w, op); Inv(n.v, n.h, n.mark)
  {
    match op
    case Insert(k, weight, e, intra, offset, merges, stale) =>
      PutKeeps(w.v, w.h, w.mark, k, weight, e, intra, offset, merges, stale);
    case Remove(k, weight, e, intra, offset, merges) =>
      DeleteKeeps(w.v, w.h, w.mark, k, weight, e, intra, offset, merges);
    case Publish(t, order) => TransformKeeps(w.v, w.h, w.mark, t, order);
    case Merge(oldest, gone) => DropKeeps(w.v, w.h, w.mark, oldest, gone);
    case Collect(oldest) => MarkMayRise(w.v, w.h, w.mark, oldest);
  }

  lemma {:induction false} WorldsKeep(run: seq<Op>, worlds: seq<World>, i: nat)
    requires IsRun(run, worlds) && i <= |run|
    ensures Inv(worlds[i].v, worlds[i].h, worlds[i].mark)
  {
    if i == 0 {
      EmptyOk(worlds[0].v);
    } else {
      WorldsKeep(run, worlds, i - 1);
      assert StepAt(run, worlds, i - 1);
      StepKeeps(worlds[i - 1], run[i - 1]);
    }
  }

  lemma RunsKeep(run: seq<Op>, w: World)
    requires Leads(run, w)
    ensures Inv(w.v, w.h, w.mark)
  {
    var worlds :| IsRun(run, worlds) && worlds[|run|] == w;
    WorldsKeep(run, worlds, |run|);
  }

  // After any run, at any epoch the watermark has not passed: the scan reports exactly the edges
  // alive at the end of the epoch, each once; the weights it hands out are the ones last written exactly
  // as WeightVerdict says; and the degree counts the edges and the overwrites of live ones.
  lemma EveryRunReadsItsHistory(run: seq<Op>, w: World, re: nat)
    requires Leads(run, w) && Quiet(w.v) && w.mark <= re < TMPVB_MASK
    ensures forall k :: Live(w.h, re, k) <==> Reported(w.v, re, k) || Scanned(w.v.chain, re, k)
    ensures forall k :: Reported(w.v, re, k) ==> !Scanned(w.v.chain, re, k)
    ensures forall k, word :: Weighs(w.v, re, k, word) ==> WeightVerdict(w.h, re, k, word)
    ensures w.v.edgeNum + Rewind(w.v.chain, |w.v.chain|, re) == |LiveKeys(w.h, re)| + OverwritesUpTo(w.h, re)
  {
    RunsKeep(run, w);
    SnapshotTopology(w.v, w.h, w.mark, re);
    DegreeTheorem(w.v, w.h, w.mark, re);
    forall k, word | Weighs(w.v, re, k, word)
      ensures WeightVerdict(w.h, re, k, word)
    {
      SnapshotWeights(w.v, w.h, w.mark, re, k, word);
    }
  }

  // ---- Where the degree and the weights fall short, on concrete runs ----

  lemma OneMore(run: seq<Op>, w: World, op: Op, next: World)
    requires Leads(run, w) && StepTo(w, op, next)
    ensures Leads(run + [op], next)
  {
    var worlds :| IsRun(run, worlds) && worlds[|run|] == w;
    var longer, more := run + [op], worlds + [next];
    forall i: nat {:trigger StepAt(longer, more, i)}
      ensures StepAt(longer, more, i)
    {
      assert StepAt(run, worlds, i);
    }
    assert IsRun(longer, more) && more[|longer|] == next;
  }

  // With a single unpublished epoch e, or none, any edge may be written in e.
  lemma MayGoOn(run: seq<Op>, w: World, k: nat, e: nat, intra: nat)
    requires Leads(run, w) && k < DELETION_MASK && intra < INTRA_MAX && EndEpoch(w.v) < e < TMPVB_MASK
    requires |WritesOf(w.h, e)| < NO_INDEX - 1 && forall u :: u in w.h && u > EndEpoch(w.v) ==> u == e
    ensures MayWrite(w.v, w.h, k, e, intra)
  {
    RunsKeep(run, w);
    assert TvbOk(w.h, EndEpoch(w.v), e % 16, w.v.tvbs[e % 16]);
    assert KeyOk(w.h, EndEpoch(w.v), w.mark, w.v.items, k);
  }

  // The entries of the only unpublished epoch, and the other slots.
  lemma OnlyUnpublished(run: seq<Op>, w: World, t: nat)
    requires Leads(run, w) && t in w.h && t > EndEpoch(w.v)
    requires forall u :: u in w.h && u > EndEpoch(w.v) ==> u == t
    ensures |w.v.tvbs| == 16
    ensures var es := w.v.tvbs[t % 16].entries;
            es != [] && |es| == |w.h[t]| && forall i :: 0 <= i < |es| ==> es[i].lastEpoch == Displaced(w.h, t, i)
    ensures forall s :: 0 <= s < 16 && s != t % 16 ==> w.v.tvbs[s].entries == []
  {
    RunsKeep(run, w);
    var es := w.v.tvbs[t % 16].entries;
    assert TvbOk(w.h, EndEpoch(w.v), t % 16, w.v.tvbs[t % 16]);
    forall i | 0 <= i < |es|
      ensures es[i].lastEpoch == Displaced(w.h, t, i)
    {
      assert EntryOk(w.h, t, i, es[i]);
    }
    forall s | 0 <= s < 16 && s != t % 16
      ensures w.v.tvbs[s].entries == []
    {
      assert TvbOk(w.h, EndEpoch(w.v), s, w.v.tvbs[s]);
    }
  }

  lemma Beginning() returns (w: World)
    ensures IsEmpty(w.v) && w.h == map[] && w.mark == 0 && Leads([], w)
  {
    var blank := TmpVersionBlock(0, []);
    w := World(Vertex(map[], [blank, blank, blank, blank, blank, blank, blank, blank,
                              blank, blank, blank, blank, blank, blank, blank, blank], [], 0), map[], 0);
    assert IsRun([], [w]);
  }

  // One more write, of the edge and in the epoch the operation names.
  lemma ThenWrite(run: seq<Op>, before: World, op: Op, ws: seq<Write>, us: seq<Write>) returns (w: World)
    requires (op.Insert? || op.Remove?) && Leads(run, before) && Allowed(before, op) && ws == WritesOf(before.h, op.e)
    requires us == ws + [Write(op.k, op.Remove?, op.weight, op.intra)]
    ensures Leads(run + [op], w) && w.mark == before.mark && EndEpoch(w.v) == EndEpoch(before.v)
    ensures w.h == before.h[op.e := us]
  {
    w := Next(before, op);
    OneMore(run, before, op, w);
  }

  // Publishing the only unpublished epoch leaves no active temporary version block.
  lemma ThenPublish(run: seq<Op>, before: World, t: nat, order: seq<nat>) returns (w: World)
    requires Leads(run, before) && t in before.h && t > EndEpoch(before.v)
    requires |before.v.tvbs| == 16 && SortedOrder(before.v.tvbs[t % 16].entries, order)
    requires forall u :: u in before.h && u > EndEpoch(before.v) ==> u == t
    ensures Leads(run + [Publish(t, order)], w) && Quiet(w.v) && w.mark == before.mark && w.h == before.h
    ensures EndEpoch(w.v) == t
  {
    OnlyUnpublished(run, before, t);
    w := Next(before, Publish(t, order));
    OneMore(run, before, Publish(t, order), w);
  }

  const ADD: Op := Insert(7, 5, 1, 1, 0, 0, Slot(0, 0, 0))
  const OVERWRITE: Op := Insert(7, 6, 1, 2, 0, 0, Slot(0, 0, 0))
  const REMOVE: Op := Remove(7, 0, 2, 1, 0, 0)
  const REINSERT: Op := Insert(7, 9, 2, 2, 0, 0, Slot(0, 0, 0))

  lemma FirstInsert() returns (w: World)
    ensures Leads([] + [ADD], w) && w.mark == 0 && EndEpoch(w.v) == 0 && w.h == map[1 := [Write(7, false, 5, 1)]]
  {
    var start := Beginning();
    MayGoOn([], start, 7, 1, 1);
    w := ThenWrite([], start, ADD, [], [Write(7, false, 5, 1)]);
  }

  lemma ThenOverwrite() returns (w: World)
    ensures Leads([ADD] + [OVERWRITE], w) && w.mark == 0 && EndEpoch(w.v) == 0
    ensures w.h == map[1 := [Write(7, false, 5, 1), Write(7, false, 6, 2)]]
  {
    var before := FirstInsert();
    assert [] + [ADD] == [ADD];
    MayGoOn([ADD], before, 7, 1, 2);
    w := ThenWrite([ADD], before, OVERWRITE, [Write(7, false, 5, 1)], [Write(7, false, 5, 1), Write(7, false, 6, 2)]);
  }

  lemma SortsTwo(es: seq<Entry>, order: seq<nat>)
    requires |es| == 2 && es[0].lastEpoch != es[1].lastEpoch
    requires order == if es[0].lastEpoch < es[1].lastEpoch then [0, 1] else [1, 0]
    ensures SortedOrder(es, order)
  {
    assert 0 == order[0] || 0 == order[1];
    assert 1 == order[0] || 1 == order[1];
  }

  lemma OverwrittenHistory(h: Log)
    requires h == map[1 := [Write(7, false, 5, 1), Write(7, false, 6, 2)]]
    ensures LiveKeys(h, 1) == {7} && OverwritesUpTo(h, 1) == 1
    ensures Displaced(h, 1, 0) == 0 && Displaced(h, 1, 1) == 1
  {
    var ws := WritesOf(h, 1);
    assert LiveKeys(h, 0) == {} && OverwritesUpTo(h, 0) == 0;
    assert ws[..1] == [Write(7, false, 5, 1)] && ws[..1][..0] == [] && ws[..0] == [];
    assert LiveAfter({}, ws[..1]) == {7};
    assert Overwrites({}, ws[..1]) == 0;
  }

  // A published overwrite of a live edge makes get_degree report two edges where there is one.
  lemma OverwriteInflatesDegree() returns (run: seq<Op>, w: World)
    ensures Leads(run, w) && Quiet(w.v) && w.mark <= 1
    ensures |LiveKeys(w.h, 1)| == 1 && w.v.edgeNum + Rewind(w.v.chain, |w.v.chain|, 1) == 2
  {
    var before := ThenOverwrite();
    run := [ADD] + [OVERWRITE];
    OnlyUnpublished(run, before, 1);
    OverwrittenHistory(before.h);
    SortsTwo(before.v.tvbs[1].entries, [0, 1]);
    w := ThenPublish(run, before, 1, [0, 1]);
    run := run + [Publish(1, [0, 1])];
    RunsKeep(run, w);
    DegreeTheorem(w.v, w.h, w.mark, 1);
  }

  const DROP: Op := Remove(7, 0, 1, 3, 0, 0)

  function DroppedWrites(): seq<Write> {
    [Write(7, false, 5, 1), Write(7, false, 6, 2), Write(7, true, 0, 3)]
  }

  lemma ThenDrop() returns (run: seq<Op>, w: World)
    ensures Leads(run, w) && w.mark == 0 && EndEpoch(w.v) == 0 && w.h == map[1 := DroppedWrites()]
  {
    var before := ThenOverwrite();
    run := [ADD] + [OVERWRITE];
    MayGoOn(run, before, 7, 1, 3);
    RunsKeep(run, before);
    LastEpochIs(before.h, TOP, 7, 1);
    assert KeyOk(before.h, 0, before.mark, before.v.items, 7);
    w := ThenWrite(run, before, DROP, [Write(7, false, 5, 1), Write(7, false, 6, 2)], DroppedWrites());
    run := run + [DROP];
  }

  lemma DroppedHistory(h: Log)
    requires h == map[1 := DroppedWrites()]
    ensures LiveKeys(h, 1) == {} && OverwritesUpTo(h, 1) == 1
    ensures Displaced(h, 1, 0) == 0 && Displaced(h, 1, 1) == 1 && Displaced(h, 1, 2) == 1
    ensures PrevIn(WritesOf(h, 1), 1) == 0 && PrevIn(WritesOf(h, 1), 2) == 1
  {
    var ws := WritesOf(h, 1);
    assert LiveKeys(h, 0) == {} && OverwritesUpTo(h, 0) == 0;
    assert ws[..2] == [Write(7, false, 5, 1), Write(7, false, 6, 2)];
    assert ws[..2][..1] == [Write(7, false, 5, 1)] == ws[..1] && ws[..1][..0] == [];
    assert LiveAfter({}, ws[..1]) == {7} && LiveAfter({}, ws[..2]) == {7};
    assert Overwrites({}, ws[..1]) == 0 && Overwrites({}, ws[..2]) == 1;
  }

  lemma SortsDropped(h: Log, es: seq<Entry>)
    requires h == map[1 := DroppedWrites()] && EntriesOk(h, 1, es)
    ensures SortedOrder(es, [0, 1, 2])
  {
    DroppedHistory(h);
    var order := [0, 1, 2];
    assert order[0] == 0 && order[1] == 1 && order[2] == 2;
    assert EntryOk(h, 1, 0, es[0]) && EntryOk(h, 1, 1, es[1]) && EntryOk(h, 1, 2, es[2]);
  }

  // The overwrite outlives its edge: after a deletion get_degree still reports an edge where the scan
  // reports none, so a vertex of non-zero degree may have no neighbours.
  lemma DegreeWithoutNeighbours() returns (run: seq<Op>, w: World)
    ensures Leads(run, w) && Quiet(w.v) && w.mark <= 1
    ensures w.v.edgeNum + Rewind(w.v.chain, |w.v.chain|, 1) == 1
    ensures forall k :: !Reported(w.v, 1, k) && !Scanned(w.v.chain, 1, k)
  {
    var before;
    run, before := ThenDrop();
    OnlyUnpublished(run, before, 1);
    RunsKeep(run, before);
    assert TvbOk(before.h, 0, 1, before.v.tvbs[1]);
    SortsDropped(before.h, before.v.tvbs[1].entries);
    w := ThenPublish(run, before, 1, [0, 1, 2]);
    run := run + [Publish(1, [0, 1, 2])];
    RunsKeep(run, w);
    DroppedHistory(w.h);
    DegreeTheorem(w.v, w.h, w.mark, 1);
    SnapshotTopology(w.v, w.h, w.mark, 1);
    forall k: nat
      ensures !Live(w.h, 1, k)
    {
      LastEpochIs(w.h, 1, k, if k == 7 then 1 else 0);
    }
  }

  lemma ThenFirstPublish() returns (w: World)
    ensures Leads([ADD] + [Publish(1, [0])], w) && w.mark == 0 && EndEpoch(w.v) == 1
    ensures w.h == map[1 := [Write(7, false, 5, 1)]]
  {
    var before := FirstInsert();
    assert [] + [ADD] == [ADD];
    OnlyUnpublished([ADD], before, 1);
    assert SortedOrder(before.v.tvbs[1].entries, [0]);
    w := ThenPublish([ADD], before, 1, [0]);
  }

  lemma StoredAlive(run: seq<Op>, w: World)
    requires Leads(run, w) && EndEpoch(w.v) == 1 && w.h == map[1 := [Write(7, false, 5, 1)]]
    ensures 7 in w.v.items && !IsDelete(w.v.items[7].e.word)
  {
    RunsKeep(run, w);
    LastEpochIs(w.h, TOP, 7, 1);
    assert KeyOk(w.h, 1, w.mark, w.v.items, 7);
  }

  lemma ThenDelete() returns (run: seq<Op>, w: World)
    ensures Leads(run, w) && w.mark == 0 && EndEpoch(w.v) == 1
    ensures w.h == map[1 := [Write(7, false, 5, 1)]][2 := [Write(7, true, 0, 1)]]
  {
    var published := ThenFirstPublish();
    run := [ADD] + [Publish(1, [0])];
    MayGoOn(run, published, 7, 2, 1);
    StoredAlive(run, published);
    w := ThenWrite(run, published, REMOVE, [], [Write(7, true, 0, 1)]);
    run := run + [REMOVE];
  }

  lemma ThenReinsert() returns (run: seq<Op>, w: World)
    ensures Leads(run, w) && w.mark == 0 && EndEpoch(w.v) == 1
    ensures w.h == map[1 := [Write(7, false, 5, 1)]][2 := [Write(7, true, 0, 1), Write(7, false, 9, 2)]]
  {
    var removed;
    run, removed := ThenDelete();
    MayGoOn(run, removed, 7, 2, 2);
    w := ThenWrite(run, removed, REINSERT, [Write(7, true, 0, 1)], [Write(7, true, 0, 1), Write(7, false, 9, 2)]);
    run := run + [REINSERT];
  }

  lemma ReinsertedHistory(h: Log)
    requires h == map[1 := [Write(7, false, 5, 1)]][2 := [Write(7, true, 0, 1), Write(7, false, 9, 2)]]
    ensures LastEpoch(h, 2, 7) == 2 && LastEpoch(h, TOP, 7) == 2 && Live(h, 2, 7) && WeightAt(h, 2, 7) == 9
    ensures Stamped(WritesOf(h, 2), 7) && StoredWeight(h, 2, 7) == 0 && Proper(h, 2)
    ensures Displaced(h, 2, 0) == 1 && Displaced(h, 2, 1) == 0
  {
    var ws := WritesOf(h, 2);
    assert ws[..1] == [Write(7, true, 0, 1)] && ws[..0] == [];
    LastEpochIs(h, 1, 7, 1);
    LastEpochIs(h, 2, 7, 2);
    LastEpochIs(h, TOP, 7, 2);
  }

  lemma ReinsertIsPublished() returns (run: seq<Op>, w: World)
    ensures Leads(run, w) && Quiet(w.v) && w.mark == 0
    ensures w.h == map[1 := [Write(7, false, 5, 1)]][2 := [Write(7, true, 0, 1), Write(7, false, 9, 2)]]
  {
    var before;
    run, before := ThenReinsert();
    OnlyUnpublished(run, before, 2);
    ReinsertedHistory(before.h);
    SortsTwo(before.v.tvbs[2].entries, [1, 0]);
    w := ThenPublish(run, before, 2, [1, 0]);
    run := run + [Publish(2, [1, 0])];
  }

  // An edge deleted and inserted again with weight 9 in one epoch is handed out with weight 0.
  lemma ReinsertedEdgeReadsZero() returns (run: seq<Op>, w: World)
    ensures Leads(run, w) && Quiet(w.v) && w.mark <= 2
    ensures Live(w.h, 2, 7) && WeightAt(w.h, 2, 7) == 9
    ensures Reported(w.v, 2, 7) && w.v.items[7].p.word == 0
  {
    run, w := ReinsertIsPublished();
    RunsKeep(run, w);
    ReinsertedHistory(w.h);
    HeadMeans(w.v, w.h, w.mark, 2, 7);
    HeadWeighs(w.v, w.h, w.mark, 2, 7);
    StampsDecide(w.h, 2, 7, w.v.items[7].p.word);
  }

  lemma DisplacedHistory(h: Log, word: nat)
    requires h == map[1 := [Write(7, false, 5, 1)]][2 := [Write(7, true, 0, 1), Write(7, false, 9, 2)]]
    ensures LastEpoch(h, TOP, 7) == 2 && Live(h, 1, 7) && WeightAt(h, 1, 7) == 5
    ensures WeightVerdict(h, 1, 7, word) ==> word == 9
  {
    ReinsertedHistory(h);
    LastEpochIs(h, 1, 7, 1);
    var ws := WritesOf(h, 2);
    assert ws[..1] == [Write(7, true, 0, 1)] && ws[..0] == [];
    assert Reinserts(ws, 1) && Clobbered(h, 1, 2, 7);
  }

  // And from then on a reader of epoch 1, in which the edge weighed 5, is handed the 9 of epoch 2.
  lemma ReinsertRewritesThePast() returns (run: seq<Op>, w: World, m: nat)
    ensures Leads(run, w) && Quiet(w.v) && w.mark <= 1
    ensures Live(w.h, 1, 7) && WeightAt(w.h, 1, 7) == 5
    ensures m < |Scan(w.v.chain, 1)| && Scan(w.v.chain, 1)[m].e.word == 7 && Scan(w.v.chain, 1)[m].p.word == 9
  {
    run, w := ReinsertIsPublished();
    RunsKeep(run, w);
    DisplacedHistory(w.h, 9);
    HeadMeans(w.v, w.h, w.mark, 1, 7);
    SnapshotTopology(w.v, w.h, w.mark, 1);
    assert Scanned(w.v.chain, 1, 7);
    m :| m < |Scan(w.v.chain, 1)| && Scan(w.v.chain, 1)[m].e.word == 7;
    DisplacedWeightIff(w.v, w.h, w.mark, 1, m);
    DisplacedHistory(w.h, Scan(w.v.chain, 1)[m].p.word);
  }

  // ---- Stamps out of order ----

  const FIRST: Op := Insert(7, 5, 1, 2, 0, 0, Slot(0, 0, 0))
  const SECOND: Op := Insert(7, 6, 1, 1, 0, 0, Slot(0, 0, 0))
  const THIRD: Op := Insert(7, 8, 1, 3, 0, 0, Slot(0, 0, 0))

  function TwoWrites(): seq<Write> {
    [Write(7, false, 5, 2), Write(7, false, 6, 1)]
  }

  function ThreeWrites(): seq<Write> {
    [Write(7, false, 5, 2), Write(7, false, 6, 1), Write(7, false, 8, 3)]
  }

  lemma ThreeAreWritten() returns (run: seq<Op>, w: World)
    ensures Leads(run, w) && w.mark == 0 && EndEpoch(w.v) == 0 && w.h == map[1 := ThreeWrites()]
  {
    var start := Beginning();
    MayGoOn([], start, 7, 1, 2);
    var one := ThenWrite([], start, FIRST, [], [Write(7, false, 5, 2)]);
    run := [] + [FIRST];
    MayGoOn(run, one, 7, 1, 1);
    var two := ThenWrite(run, one, SECOND, [Write(7, false, 5, 2)], TwoWrites());
    run := run + [SECOND];
    MayGoOn(run, two, 7, 1, 3);
    w := ThenWrite(run, two, THIRD, TwoWrites(), ThreeWrites());
    run := run + [THIRD];
  }

  lemma DisorderedHistory(h: Log)
    requires h == map[1 := ThreeWrites()]
    ensures Displaced(h, 1, 0) == 0 && Displaced(h, 1, 1) == 1 && Displaced(h, 1, 2) == 1
    ensures PrevIn(WritesOf(h, 1), 1) == 0 && PrevIn(WritesOf(h, 1), 2) == 1
    ensures LastEpoch(h, 1, 7) == 1 && LastEpoch(h, TOP, 7) == 1 && Live(h, 1, 7) && WeightAt(h, 1, 7) == 8
  {
    LastEpochIs(h, 1, 7, 1);
    LastEpochIs(h, TOP, 7, 1);
  }

  // The second write sorts last: it displaces the version with the largest stamp.
  lemma SecondSortsLast(h: Log, weight: nat)
    requires h == map[1 := ThreeWrites()] && MayLeave(h, 1, 7, weight)
    ensures weight == 6
  {
    DisorderedHistory(h);
    var i: nat :| SortsLast(h, 1, 7, i) && Leaves(WritesOf(h, 1)[i]) == weight;
    assert SortsBefore(h, 1, 0, 1) && SortsBefore(h, 1, 2, 1);
  }

  lemma SortsThree(h: Log, es: seq<Entry>)
    requires h == map[1 := ThreeWrites()] && EntriesOk(h, 1, es)
    ensures SortedOrder(es, [0, 2, 1])
  {
    DisorderedHistory(h);
    var order := [0, 2, 1];
    assert order[0] == 0 && order[1] == 2 && order[2] == 1;
    assert EntryOk(h, 1, 0, es[0]) && EntryOk(h, 1, 1, es[1]) && EntryOk(h, 1, 2, es[2]);
  }

  // A transaction draws its stamp at its first write anywhere, so the stamps of one edge's writes need
  // not grow. The last write of this run wrote 8; the edge is handed out with weight 6.
  lemma StampsOutOfOrderReadWrong() returns (run: seq<Op>, w: World)
    ensures Leads(run, w) && Quiet(w.v) && w.mark <= 1
    ensures Live(w.h, 1, 7) && WeightAt(w.h, 1, 7) == 8 && forall t :: !Clobbered(w.h, 1, t, 7)
    ensures Reported(w.v, 1, 7) && w.v.items[7].p.word == 6
  {
    var before;
    run, before := ThreeAreWritten();
    OnlyUnpublished(run, before, 1);
    RunsKeep(run, before);
    assert TvbOk(before.h, 0, 1, before.v.tvbs[1]);
    SortsThree(before.h, before.v.tvbs[1].entries);
    w := ThenPublish(run, before, 1, [0, 2, 1]);
    run := run + [Publish(1, [0, 2, 1])];
    RunsKeep(run, w);
    DisorderedHistory(w.h);
    HeadMeans(w.v, w.h, w.mark, 1, 7);
    NewestIsNotDisplaced(w.v, w.h, w.mark, 1, 7);
    HeadWeighs(w.v, w.h, w.mark, 1, 7);
    SecondSortsLast(w.h, w.v.items[7].p.word);
  }
}
