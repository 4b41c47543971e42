// One vertex under the epoch protocol: the machines of EpochManager and Reclamation drive the vertex,
// and what they promise is what the vertex needs. Every interleaving of writers, updater, merges,
// readers and garbage collection is covered; a write to the vertex and the Transform of an epoch are
// one step each, as the vertex lock makes them, and readers register in one step.
module VertexProtocol {
  import opened Basics
  import opened History
  import opened VertexState
  import opened VertexModel
  import opened VertexSteps
  import opened VertexSnapshot
  import opened VertexDegree
  import opened VertexRuns
  import EpochManager
  import Reclamation

  datatype Whole = Whole(epochs: EpochManager.State, vertex: World, readers: Reclamation.State)

  datatype Act =
    | Advance(a: EpochManager.Action)        // a step of a writer or the updater elsewhere
    | WriteEdge(w: nat, op: Op)              // a registered writer inserts or deletes an edge
    | TransformVertex(order: seq<nat>)       // the updater publishes the vertex's part of its epoch
    | MergeBuffer(oldest: nat, gone: set<nat>)
    | Reader(move: Reclamation.Action)       // a reader comes or goes, or a round of collection

  ghost predicate Shape(s: Whole) {
    EpochManager.Shape(s.epochs) && Reclamation.Shape(s.readers) && |s.vertex.v.tvbs| == 16
  }

  predicate Writes(s: Whole, w: nat) {
    w < |s.epochs.writers| && EpochManager.InStage(s.epochs.writers[w], EpochManager.Writing)
  }

  // What a write asks of its caller. Nothing in the protocol keeps two unpublished epochs from writing
  // the same edge, nor a caller from deleting an edge twice.
  ghost predicate CallerMay(w: World, op: Op)
    requires op.Insert? || op.Remove?
  {
    && op.k < DELETION_MASK && op.intra < INTRA_MAX && |WritesOf(w.h, op.e)| < NO_INDEX - 1
    && (op.k in w.v.items && IsTmp(w.v.items[op.k].e.block) ==> Coarse(w.v.items[op.k].e.block) == op.e)
    && (op.Remove? ==> op.k in w.v.items && !IsDelete(w.v.items[op.k].e.word))
  }

  function Pending(s: Whole): seq<Entry>
    requires |s.vertex.v.tvbs| == 16 && s.epochs.updater.Transforming?
  {
    s.vertex.v.tvbs[s.epochs.updater.v % 16].entries
  }

  ghost predicate Enabled(s: Whole, act: Act)
    requires Shape(s)
  {
    match act
    case Advance(a) =>
      (a.Writer? && Writes(s, a.w) ==> !a.choice) && (a.Updater? ==> !s.epochs.updater.Transforming?)
    case WriteEdge(w, op) =>
      Writes(s, w) && (op.Insert? || op.Remove?) && op.e == s.epochs.writers[w].e && CallerMay(s.vertex, op)
    case TransformVertex(order) =>
      s.epochs.updater.Transforming? && (Pending(s) != [] ==> SortedOrder(Pending(s), order))
    case MergeBuffer(oldest, gone) => oldest <= s.vertex.mark && MayDrop(s.vertex.v, oldest, gone)
    case Reader(a) => a.RegisterAtOnce? || a.Deregister? || a.GcRound?
  }

  ghost function Transformed(s: Whole, order: seq<nat>): World
    requires |s.vertex.v.tvbs| == 16 && s.epochs.updater.Transforming?
    requires Pending(s) != [] ==> SortedOrder(Pending(s), order)
  {
    if Pending(s) == [] then s.vertex else Next(s.vertex, Publish(s.epochs.updater.v, order))
  }

  ghost function After(s: Whole, act: Act): Whole
    requires Shape(s) && Enabled(s, act)
  {
    match act
    case Advance(a) =>
      Whole(EpochManager.Step(s.epochs, a), s.vertex,
            if a.Updater? && s.epochs.updater.BumpEpoch? then Reclamation.Step(s.readers, Reclamation.Publish)
            else s.readers)
    case WriteEdge(w, op) =>
      Whole(EpochManager.Step(s.epochs, EpochManager.Writer(w, true)), Next(s.vertex, op), s.readers)
    case TransformVertex(order) =>
      Whole(EpochManager.StepUpdater(s.epochs), Transformed(s, order), s.readers)
    case MergeBuffer(oldest, gone) => s.(vertex := Next(s.vertex, Merge(oldest, gone)))
    case Reader(a) =>
      var r := Reclamation.Step(s.readers, a);
      Whole(s.epochs, if a.GcRound? then Next(s.vertex, Collect(r.watermark)) else s.vertex, r)
  }

  // ---- The invariant ----

  // The epochs whose Transform is over.
  function Done(p: EpochManager.State): nat {
    p.readEpoch + if p.updater.Push? || p.updater.BumpEpoch? then 1 else 0
  }

  // The vertex has published every write of those epochs and of no other.
  ghost predicate InStep(p: EpochManager.State, w: World) {
    && EndEpoch(w.v) <= Done(p)
    && forall t :: t in w.h ==> t <= p.cur && (t <= Done(p) ==> t <= EndEpoch(w.v))
  }

  ghost predicate Mirrored(p: EpochManager.State, tvbs: seq<TmpVersionBlock>)
    requires EpochManager.Shape(p) && |tvbs| == 16
  {
    forall i :: 0 <= i < 16 ==> p.stamp[i] == tvbs[i].timestamp && p.pending[i] == |tvbs[i].entries|
  }

  ghost predicate Sound(s: Whole) {
    && EpochManager.Inv(s.epochs) && Inv(s.vertex.v, s.vertex.h, s.vertex.mark) && Reclamation.Pinned(s.readers)
    && s.readers.readEpoch == s.epochs.readEpoch && s.vertex.mark == s.readers.watermark
    && InStep(s.epochs, s.vertex) && Mirrored(s.epochs, s.vertex.v.tvbs)
  }

  // ---- What the epoch machine does to the counters ----

  lemma WriterMoves(p: EpochManager.State, w: nat, choice: bool)
    requires EpochManager.Inv(p) && w < |p.writers|
    ensures var q := EpochManager.StepWriter(p, w, choice);
            && q.readEpoch == p.readEpoch && q.updater == p.updater && q.cur >= p.cur
            && ((EpochManager.InStage(p.writers[w], EpochManager.Writing) ==> !choice) ==>
                q.stamp == p.stamp && q.pending == p.pending)
  {
    assert EpochManager.WriterOk(p, w);
    EpochManager.WriterEffect(p, w, choice);
  }

  lemma AdvanceMoves(p: EpochManager.State, a: EpochManager.Action)
    requires EpochManager.Inv(p) && (a.Updater? ==> !p.updater.Transforming?)
    requires a.Writer? && a.w < |p.writers| && EpochManager.InStage(p.writers[a.w], EpochManager.Writing) ==> !a.choice
    ensures var q := EpochManager.Step(p, a);
            && q.cur >= p.cur && Done(q) == Done(p) && q.stamp == p.stamp && q.pending == p.pending
            && q.readEpoch == p.readEpoch + if a.Updater? && p.updater.BumpEpoch? then 1 else 0
  {
    match a
    case Writer(w, choice) => if w < |p.writers| { WriterMoves(p, w, choice); }
    case Updater => EpochManager.UpdaterMoves(p);
    case CloseWriters =>
  }

  lemma AdvanceKeeps(s: Whole, a: EpochManager.Action)
    requires Sound(s) && Enabled(s, Advance(a))
    ensures Sound(After(s, Advance(a)))
  {
    EpochManager.StepKeeps(s.epochs, a);
    AdvanceMoves(s.epochs, a);
    if a.Updater? && s.epochs.updater.BumpEpoch? {
      Reclamation.PinnedStep(s.readers, Reclamation.Publish);
    }
  }

  // ---- Writes ----

  // Entries in the slot of an unpublished epoch are that epoch's.
  lemma SlotIsItsEpoch(s: Whole, e: nat)
    requires Sound(s) && Done(s.epochs) < e <= s.epochs.cur && s.vertex.v.tvbs[e % 16].entries != []
    ensures s.vertex.v.tvbs[e % 16].timestamp == e && e in s.vertex.h
  {
    var b := s.vertex.v.tvbs[e % 16];
    assert TvbOk(s.vertex.h, EndEpoch(s.vertex.v), e % 16, b);
    if b.timestamp < e {
      EpochManager.RingSlotsDiffer(b.timestamp, e);
    } else if e < b.timestamp {
      EpochManager.RingSlotsDiffer(e, b.timestamp);
    }
  }

  // A registered writer's epoch is one the vertex may be written in.
  lemma WriterMayWrite(s: Whole, w: nat, op: Op)
    requires Sound(s) && Enabled(s, WriteEdge(w, op))
    ensures Done(s.epochs) < op.e <= s.epochs.cur && s.epochs.readEpoch < op.e && Allowed(s.vertex, op)
  {
    assert EpochManager.WriterOk(s.epochs, w);
    EpochManager.RegisteredAboveFrontier(s.epochs, w);
    if s.vertex.v.tvbs[op.e % 16].entries != [] {
      SlotIsItsEpoch(s, op.e);
    }
  }

  // An added entry shows in its own slot only.
  lemma EntryShows(tvbs: seq<TmpVersionBlock>, e: nat, n: Entry, isTmp: bool, i: nat)
    requires |tvbs| == 16 && i < 16
    ensures var r := AddEntry(tvbs, e, n, isTmp);
            if i != e % 16 then r[i].timestamp == tvbs[i].timestamp && |r[i].entries| == |tvbs[i].entries|
            else r[i].timestamp == e && |r[i].entries| == 1 + if tvbs[i].timestamp == e then |tvbs[i].entries| else 0
  {
  }

  lemma TouchMirrors(p: EpochManager.State, tvbs: seq<TmpVersionBlock>, e: nat, n: Entry, isTmp: bool)
    requires EpochManager.Shape(p) && |tvbs| == 16 && Mirrored(p, tvbs)
    ensures Mirrored(EpochManager.Touch(p, e), AddEntry(tvbs, e, n, isTmp))
  {
    forall i: nat | i < 16
      ensures EpochManager.Touch(p, e).stamp[i] == AddEntry(tvbs, e, n, isTmp)[i].timestamp
      ensures EpochManager.Touch(p, e).pending[i] == |AddEntry(tvbs, e, n, isTmp)[i].entries|
    {
      EntryShows(tvbs, e, n, isTmp, i);
    }
  }

  lemma WriteMirrors(p: EpochManager.State, w: World, op: Op)
    requires EpochManager.Shape(p) && Possible(w, op) && (op.Insert? || op.Remove?) && Mirrored(p, w.v.tvbs)
    ensures |Next(w, op).v.tvbs| == 16 && Mirrored(EpochManager.Touch(p, op.e), Next(w, op).v.tvbs)
  {
    if op.Insert? {
      var it := Current(w.v, op.k, op.weight, op.stale);
      TouchMirrors(p, w.v.tvbs, op.e,
                   EntryFor(it, op.k, op.weight, op.intra, op.offset, op.merges, IsDelete(it.e.word)),
                   IsTmp(it.e.block));
    } else {
      var it := w.v.items[op.k];
      TouchMirrors(p, w.v.tvbs, op.e,
                   EntryFor(it, op.k + DELETION_MASK, op.weight, op.intra, op.offset, op.merges, false),
                   IsTmp(it.e.block));
    }
  }

  lemma WriteTouches(p: EpochManager.State, w: nat)
    requires EpochManager.Shape(p) && w < |p.writers| && EpochManager.InStage(p.writers[w], EpochManager.Writing)
    ensures EpochManager.Step(p, EpochManager.Writer(w, true)) == EpochManager.Touch(p, p.writers[w].e)
  {
  }

  lemma WriteInStep(p: EpochManager.State, w: World, op: Op)
    requires EpochManager.Shape(p) && InStep(p, w) && Possible(w, op) && (op.Insert? || op.Remove?)
    requires Done(p) < op.e <= p.cur
    ensures InStep(EpochManager.Touch(p, op.e), Next(w, op))
  {
  }

  lemma WriteKeeps(s: Whole, w: nat, op: Op)
    requires Sound(s) && Enabled(s, WriteEdge(w, op))
    ensures Sound(After(s, WriteEdge(w, op)))
  {
    WriterMayWrite(s, w, op);
    VertexRuns.StepKeeps(s.vertex, op);
    EpochManager.StepKeeps(s.epochs, EpochManager.Writer(w, true));
    WriteTouches(s.epochs, w);
    WriteMirrors(s.epochs, s.vertex, op);
    WriteInStep(s.epochs, s.vertex, op);
  }

  // ---- Publication ----

  lemma TransformingNext(s: Whole)
    requires Sound(s) && s.epochs.updater.Transforming?
    ensures s.epochs.updater.v == s.epochs.readEpoch + 1 == Done(s.epochs) + 1 <= s.epochs.cur
  {
    EpochManager.RingFacts(s.epochs);
  }

  lemma MayTransform(s: Whole, order: seq<nat>)
    requires Sound(s) && Enabled(s, TransformVertex(order)) && Pending(s) != []
    ensures MayPublish(s.vertex.v, s.vertex.h, s.epochs.updater.v, order)
  {
    TransformingNext(s);
    SlotIsItsEpoch(s, s.epochs.updater.v);
  }

  lemma DrainMirrors(s: Whole, order: seq<nat>)
    requires Sound(s) && Enabled(s, TransformVertex(order))
    ensures |Transformed(s, order).v.tvbs| == 16
    ensures Mirrored(EpochManager.Drain(s.epochs, s.epochs.updater.v), Transformed(s, order).v.tvbs)
  {
    TransformingNext(s);
    if Pending(s) != [] {
      SlotIsItsEpoch(s, s.epochs.updater.v);
    }
  }

  lemma NotWritten(s: Whole)
    requires Sound(s) && s.epochs.updater.Transforming? && Pending(s) == []
    ensures s.epochs.updater.v !in s.vertex.h
  {
    TransformingNext(s);
  }

  lemma TransformMoves(p: EpochManager.State)
    requires EpochManager.Shape(p) && p.updater.Transforming?
    ensures var q := EpochManager.StepUpdater(p); Done(q) == p.readEpoch + 1 && q.cur == p.cur
  {
    EpochManager.UpdaterMoves(p);
  }

  lemma NextPublishes(w: World, t: nat, order: seq<nat>)
    requires Inv(w.v, w.h, w.mark) && MayPublish(w.v, w.h, t, order)
    ensures Possible(w, Publish(t, order))
    ensures var n := Next(w, Publish(t, order));
            Inv(n.v, n.h, n.mark) && EndEpoch(n.v) == t && n.h == w.h && n.mark == w.mark
  {
    VertexSteps.TransformKeeps(w.v, w.h, w.mark, t, order);
  }

  lemma TransformInStep(s: Whole, order: seq<nat>)
    requires Sound(s) && Enabled(s, TransformVertex(order))
    ensures var w := Transformed(s, order);
            Inv(w.v, w.h, w.mark) && w.mark == s.vertex.mark && InStep(EpochManager.StepUpdater(s.epochs), w)
  {
    TransformingNext(s);
    TransformMoves(s.epochs);
    if Pending(s) == [] {
      NotWritten(s);
    } else {
      MayTransform(s, order);
      NextPublishes(s.vertex, s.epochs.updater.v, order);
    }
  }

  lemma TransformKeeps(s: Whole, order: seq<nat>)
    requires Sound(s) && Enabled(s, TransformVertex(order))
    ensures Sound(After(s, TransformVertex(order)))
  {
    EpochManager.StepKeeps(s.epochs, EpochManager.Updater);
    EpochManager.UpdaterMoves(s.epochs);
    DrainMirrors(s, order);
    TransformInStep(s, order);
  }

  // ---- Merges and readers ----

  lemma ReaderKeeps(s: Whole, a: Reclamation.Action)
    requires Sound(s) && Enabled(s, Reader(a))
    ensures Sound(After(s, Reader(a)))
  {
    Reclamation.PinnedStep(s.readers, a);
    var r := Reclamation.Step(s.readers, a);
    if a.GcRound? {
      assert r.watermark <= s.epochs.readEpoch < TMPVB_MASK;
      VertexRuns.StepKeeps(s.vertex, Collect(r.watermark));
    }
  }

  lemma StepKeepsAll(s: Whole, act: Act)
    requires Sound(s) && Enabled(s, act)
    ensures Sound(After(s, act))
  {
    match act
    case Advance(a) => AdvanceKeeps(s, a);
    case WriteEdge(w, op) => WriteKeeps(s, w, op);
    case TransformVertex(order) => TransformKeeps(s, order);
    case MergeBuffer(oldest, gone) => VertexRuns.StepKeeps(s.vertex, Merge(oldest, gone));
    case Reader(a) => ReaderKeeps(s, a);
  }

  // ---- Whole runs ----

  ghost predicate Starts(s: Whole, writers: nat, readers: nat) {
    && s.epochs == EpochManager.Init(writers) && s.readers == Reclamation.Init(readers)
    && IsEmpty(s.vertex.v) && s.vertex.h == map[] && s.vertex.mark == 0
  }

  ghost predicate Steps(s: Whole, act: Act, t: Whole) {
    Shape(s) && Enabled(s, act) && t == After(s, act)
  }

  ghost predicate StepsAt(run: seq<Act>, states: seq<Whole>, i: nat) {
    i < |run| && i + 1 < |states| ==> Steps(states[i], run[i], states[i + 1])
  }

  ghost predicate IsExecution(writers: nat, readers: nat, run: seq<Act>, states: seq<Whole>) {
    && |states| == |run| + 1 && Starts(states[0], writers, readers)
    && forall i {:trigger StepsAt(run, states, i)} :: StepsAt(run, states, i)
  }

  lemma StartsSound(s: Whole, writers: nat, readers: nat)
    requires Starts(s, writers, readers)
    ensures Sound(s)
  {
    EpochManager.InitOk(writers);
    Reclamation.PinnedReachable(readers, []);
    EmptyOk(s.vertex.v);
  }

  // The protocol's promises are what the vertex needs: nothing but CallerMay is asked of the writers.
  lemma {:induction false} ExecutionIsSound(writers: nat, readers: nat, run: seq<Act>, states: seq<Whole>, i: nat)
    requires IsExecution(writers, readers, run, states) && i <= |run|
    ensures Sound(states[i])
  {
    if i == 0 {
      StartsSound(states[0], writers, readers);
    } else {
      ExecutionIsSound(writers, readers, run, states, i - 1);
      assert StepsAt(run, states, i - 1);
      StepKeepsAll(states[i - 1], run[i - 1]);
    }
  }

  // ---- What readers are promised ----

  ghost predicate Reads(s: Whole, r: nat, re: nat) {
    r < |s.readers.readers| && s.readers.readers[r].Reading? && s.readers.readers[r].re == re
  }

  // A reader finds the edges alive at the end of its epoch, with their weights, and the degree.
  ghost predicate ReadsHistory(w: World, re: nat) {
    && (forall k :: Live(w.h, re, k) <==> Reported(w.v, re, k) || Scanned(w.v.chain, re, k))
    && (forall k :: Reported(w.v, re, k) ==> !Scanned(w.v.chain, re, k))
    && (forall k, word :: Weighs(w.v, re, k, word) ==> WeightVerdict(w.h, re, k, word))
    && w.v.edgeNum + Rewind(w.v.chain, |w.v.chain|, re) == |LiveKeys(w.h, re)| + OverwritesUpTo(w.h, re)
  }

  lemma SoundReads(s: Whole, r: nat, re: nat)
    requires Sound(s) && Reads(s, r, re) && Quiet(s.vertex.v)
    ensures ReadsHistory(s.vertex, re) && Reclamation.BlocksAlive(s.readers, re)
  {
    var w := s.vertex;
    assert Reclamation.ReaderOk(s.readers, r);
    Reclamation.PinnedKeepsBlocks(s.readers, r);
    SnapshotTopology(w.v, w.h, w.mark, re);
    DegreeTheorem(w.v, w.h, w.mark, re);
    forall k, word | Weighs(w.v, re, k, word)
      ensures WeightVerdict(w.h, re, k, word)
    {
      SnapshotWeights(w.v, w.h, w.mark, re, k, word);
    }
  }

  // Every registered reader reads the history at its epoch, whatever the other threads have done, and
  // every block it may walk is still there.
  lemma EveryReaderReadsItsEpoch(writers: nat, readers: nat, run: seq<Act>, states: seq<Whole>, i: nat, r: nat, re: nat)
    requires IsExecution(writers, readers, run, states) && i <= |run|
    requires Reads(states[i], r, re) && Quiet(states[i].vertex.v)
    ensures ReadsHistory(states[i].vertex, re) && Reclamation.BlocksAlive(states[i].readers, re)
  {
    ExecutionIsSound(writers, readers, run, states, i);
    SoundReads(states[i], r, re);
  }

  // A step writes to no published epoch.
  lemma PublishedStays(s: Whole, act: Act, t: nat)
    requires Sound(s) && Enabled(s, act) && t <= s.epochs.readEpoch
    ensures WritesOf(After(s, act).vertex.h, t) == WritesOf(s.vertex.h, t)
    ensures s.epochs.readEpoch <= After(s, act).epochs.readEpoch
  {
    match act
    case Advance(a) => AdvanceMoves(s.epochs, a);
    case WriteEdge(w, op) =>
      WriterMayWrite(s, w, op);
      WriterMoves(s.epochs, w, true);
    case TransformVertex(_) => EpochManager.UpdaterMoves(s.epochs);
    case MergeBuffer(_, _) =>
    case Reader(_) =>
  }

  lemma PublishedStaysAt(writers: nat, readers: nat, run: seq<Act>, states: seq<Whole>, i: nat, t: nat)
    requires IsExecution(writers, readers, run, states) && i < |run| && t <= states[i].epochs.readEpoch
    ensures WritesOf(states[i + 1].vertex.h, t) == WritesOf(states[i].vertex.h, t)
    ensures states[i].epochs.readEpoch <= states[i + 1].epochs.readEpoch
  {
    ExecutionIsSound(writers, readers, run, states, i);
    assert StepsAt(run, states, i);
    PublishedStays(states[i], run[i], t);
  }

  lemma {:induction false} PublishedIsFinal(writers: nat, readers: nat, run: seq<Act>, states: seq<Whole>, i: nat,
                                            j: nat, t: nat)
    requires IsExecution(writers, readers, run, states) && i <= j <= |run| && t <= states[i].epochs.readEpoch
    ensures WritesOf(states[j].vertex.h, t) == WritesOf(states[i].vertex.h, t)
    ensures states[i].epochs.readEpoch <= states[j].epochs.readEpoch
  {
    if i < j {
      PublishedIsFinal(writers, readers, run, states, i, j - 1, t);
      PublishedStaysAt(writers, readers, run, states, j - 1, t);
    }
  }

  // Repeatable reads: from its registration on, a reader is handed the edges that were alive at the end
  // of its epoch then, however long it reads and whatever is written, published, merged or freed meanwhile.
  lemma ReadsAreRepeatable(writers: nat, readers: nat, run: seq<Act>, states: seq<Whole>, i: nat, j: nat, r: nat,
                           re: nat)
    requires IsExecution(writers, readers, run, states) && i <= j <= |run|
    requires Reads(states[i], r, re) && Reads(states[j], r, re) && Quiet(states[j].vertex.v)
    ensures forall k ::
              Live(states[i].vertex.h, re, k) <==>
                Reported(states[j].vertex.v, re, k) || Scanned(states[j].vertex.v.chain, re, k)
  {
    ExecutionIsSound(writers, readers, run, states, i);
    EveryReaderReadsItsEpoch(writers, readers, run, states, j, r, re);
    assert Reclamation.ReaderOk(states[i].readers, r);
    forall t | 0 < t <= re
      ensures WritesOf(states[j].vertex.h, t) == WritesOf(states[i].vertex.h, t)
    {
      PublishedIsFinal(writers, readers, run, states, i, j, t);
    }
    forall k: nat
      ensures Live(states[i].vertex.h, re, k) <==> Live(states[j].vertex.h, re, k)
    {
      SameBefore(states[i].vertex.h, states[j].vertex.h, re, k);
    }
  }

  // ---- What a new reader is handed ----

  ghost predicate Registers(s: Whole, act: Act, r: nat) {
    r < |s.readers.readers| && s.readers.readers[r].Idle? && act == Reader(Reclamation.RegisterAtOnce(r))
  }

  // A vertex with nothing pending has no write later than the last Transform.
  lemma NothingIsHidden(s: Whole, k: nat)
    requires Sound(s) && Quiet(s.vertex.v) && Done(s.epochs) == s.epochs.readEpoch
    ensures LastEpoch(s.vertex.h, s.epochs.readEpoch, k) == LastEpoch(s.vertex.h, TOP, k)
  {
    QuietIsPublished(s.vertex.v, s.vertex.h, s.vertex.mark, k);
    LastEpochIs(s.vertex.h, s.epochs.readEpoch, k, LastEpoch(s.vertex.h, TOP, k));
  }

  // A reader that registers is given the newest published epoch and finds the history at its end. Between
  // two publications, on a vertex with nothing pending, that is every write made so far.
  lemma RegistrationReadsNewest(writers: nat, readers: nat, run: seq<Act>, states: seq<Whole>, i: nat, r: nat)
    requires IsExecution(writers, readers, run, states) && i < |run| && Registers(states[i], run[i], r)
    ensures var re := states[i].epochs.readEpoch;
            && Reads(states[i + 1], r, re) && states[i + 1].vertex == states[i].vertex
            && (Quiet(states[i].vertex.v) ==> ReadsHistory(states[i + 1].vertex, re))
            && (Quiet(states[i].vertex.v) && Done(states[i].epochs) == re ==>
                  forall k :: LastEpoch(states[i].vertex.h, re, k) == LastEpoch(states[i].vertex.h, TOP, k))
  {
    ExecutionIsSound(writers, readers, run, states, i);
    assert StepsAt(run, states, i);
    Reclamation.RegistersAtNewest(states[i].readers, r);
    if Quiet(states[i].vertex.v) {
      EveryReaderReadsItsEpoch(writers, readers, run, states, i + 1, r, states[i].epochs.readEpoch);
      if Done(states[i].epochs) == states[i].epochs.readEpoch {
        forall k: nat
          ensures LastEpoch(states[i].vertex.h, states[i].epochs.readEpoch, k) == LastEpoch(states[i].vertex.h, TOP, k)
        {
          NothingIsHidden(states[i], k);
        }
      }
    }
  }

  // A round of collection moves the vertex's watermark to the newest published epoch or to a registered
  // reader's, and frees every block below it.
  lemma CollectionIsPrompt(writers: nat, readers: nat, run: seq<Act>, states: seq<Whole>, i: nat)
    requires IsExecution(writers, readers, run, states) && i < |run| && run[i] == Reader(Reclamation.GcRound)
    ensures var s, t := states[i], states[i + 1];
            && (t.vertex.mark == s.epochs.readEpoch || exists r :: Reads(s, r, t.vertex.mark))
            && (forall e :: e in t.readers.queue <==> Max(t.vertex.mark, 1) <= e <= s.epochs.readEpoch)
  {
    ExecutionIsSound(writers, readers, run, states, i);
    assert StepsAt(run, states, i);
    Reclamation.PinnedRoundBound(states[i].readers);
    var m := states[i + 1].vertex.mark;
    if m != states[i].epochs.readEpoch {
      var rs := states[i].readers.readers;
      var r :| 0 <= r < |rs| && rs[r].Reading? && rs[r].re == m;
      assert Reads(states[i], r, m);
    }
  }
}
