// The epoch protocol of AllVBManager (data-structure/VersionBlock/AllVBManager.cpp) as a
// sequentially consistent machine. Every load and store of a shared variable is one step;
// any number of writer threads run, each with its own announcement slot, beside one updater.
module EpochManager {
  import opened Basics

  // Where a writer stands inside registerTransaction, or after it.
  datatype WriterPc =
    | Idle
    | LoadCur                           // test1: about to load cur_
    | CheckWindow(nw: nat)              // test1: about to load read_epoch_ and test the window
    | Announce(nw: nat)                 // about to store nw in the announcement slot
    | Recheck(nw: nat)                  // about to compare nw with cur_ again
    | Registered(e: nat, stage: Stage)  // past the re-check, not yet deregistered

  // The optional epoch creation of lines 311-338, then the transaction's own writes.
  datatype Stage =
    | Entered
    | HaveCur(c: nat)                   // window test: cur_ loaded first
    | HaveRead(r: nat)                  // window test: read_epoch_ loaded first
    | MayCreate                         // about to try the is_create flag
    | Locked                            // flag taken, about to compare with cur_
    | Matched                           // about to fill the next ring slot
    | SlotFilled                        // about to increment cur_
    | Unlock                            // about to clear the flag
    | Writing

  datatype UpdaterPc =
    | Waiting                           // about to load cur_
    | LoadedCur(c: nat)                 // about to load no_more_txn_
    | Scanning(i: nat, base: nat, least: nat)
    | Decide                            // about to test the gap, and no_more_txn_ if there is none
    | DecideClosed                      // closed: about to load cur_
    | PickTarget                        // about to load no_more_txn_
    | PickClosed                        // closed: about to load cur_
    | LoadSlot(target: nat)
    | TestPublish(target: nat, v: nat)
    | Transforming(target: nat, v: nat)
    | Push(target: nat, v: nat)
    | BumpEpoch(target: nat)
    | BumpSlot(target: nat)

  datatype State = State(
    cur: nat,
    readEpoch: nat,
    readEpochCur: nat,
    minEpoch: nat,
    noMore: bool,
    isCreate: bool,
    active: seq<nat>,                   // announcement slots
    writers: seq<WriterPc>,
    ring: seq<nat>,                     // epoch of the VBData in each ring slot, 0 if none yet
    queue: seq<nat>,                    // epochs handed to vb_que_, in order
    updater: UpdaterPc,
    stamp: seq<nat>,                    // one vertex: timestamp_ of its 16 temporary version blocks
    pending: seq<nat>)                  // and how many entries each holds

  datatype Action =
    | Writer(w: nat, choice: bool)      // the choice stands for load order and the random draw
    | Updater
    | CloseWriters                      // NoMoreTxn

  ghost predicate Shape(s: State) {
    && |s.active| == |s.writers|
    && |s.ring| == |s.stamp| == |s.pending| == 16
  }

  function Init(threads: nat): (s: State)
    ensures Shape(s)
  {
    State(1, 0, 1, 0, false, false, Fill(threads, NONE), Fill(threads, Idle),
          Fill(16, 0)[1 := 1], [], Waiting, Fill(16, 0), Fill(16, 0))
  }

  // Unsigned subtraction, wrapping at 32 bits.
  function Sub32(a: nat, b: nat): int {
    if b <= a then a - b else a + 0x1_0000_0000 - b
  }

  function At(s: State, w: nat, pc: WriterPc): (t: State)
    requires Shape(s) && w < |s.writers|
    ensures Shape(t)
  {
    s.(writers := s.writers[w := pc])
  }

  function StepWriter(s: State, w: nat, choice: bool): (t: State)
    requires Shape(s) && w < |s.writers|
    ensures Shape(t)
  {
    match s.writers[w]
    case Idle => if s.noMore then s else At(s, w, LoadCur)
    case LoadCur => At(s, w, CheckWindow(s.cur))
    case CheckWindow(nw) =>
      At(s, w, if Sub32(nw, s.readEpoch) >= 16 then LoadCur else Announce(nw))
    case Announce(nw) => At(s, w, Recheck(nw)).(active := s.active[w := nw])
    case Recheck(nw) => At(s, w, if nw != s.cur then LoadCur else Registered(nw, Entered))
    case Registered(e, stage) => StepStage(s, w, e, stage, choice)
  }

  function StepStage(s: State, w: nat, e: nat, stage: Stage, choice: bool): (t: State)
    requires Shape(s) && w < |s.writers|
    ensures Shape(t)
  {
    match stage
    case Entered => At(s, w, Registered(e, if choice then HaveCur(s.cur) else HaveRead(s.readEpoch)))
    case HaveCur(c) =>
      At(s, w, Registered(e, if Sub32(c, s.readEpoch) < 16 && choice then MayCreate else Writing))
    case HaveRead(r) =>
      At(s, w, Registered(e, if Sub32(s.cur, r) < 16 && choice then MayCreate else Writing))
    case MayCreate =>
      if s.isCreate then At(s, w, Registered(e, Writing))
      else At(s, w, Registered(e, Locked)).(isCreate := true)
    case Locked => At(s, w, Registered(e, if e == s.cur then Matched else Unlock))
    case Matched =>
      At(s, w, Registered(e, SlotFilled)).(ring := s.ring[(e + 1) % 16 := e + 1])
    case SlotFilled =>
      if s.cur + 1 < TMPVB_MASK then At(s, w, Registered(e, Unlock)).(cur := s.cur + 1) else s
    case Unlock => At(s, w, Registered(e, Writing)).(isCreate := false)
    case Writing =>
      if choice then Touch(s, e) else At(s, w, Idle).(active := s.active[w := NONE])
  }

  // A write of epoch e to the vertex: claim the temporary version block, then add an entry.
  function Touch(s: State, e: nat): (t: State)
    requires Shape(s)
    ensures Shape(t)
  {
    var i := e % 16;
    if s.stamp[i] != e then
      s.(stamp := s.stamp[i := e], pending := s.pending[i := 1])
    else
      s.(pending := s.pending[i := s.pending[i] + 1])
  }

  // Transform of epoch v empties the block that carries it.
  function Drain(s: State, v: nat): (t: State)
    requires Shape(s)
    ensures Shape(t)
  {
    if s.stamp[v % 16] == v then s.(pending := s.pending[v % 16 := 0]) else s
  }

  function StepUpdater(s: State): (t: State)
    requires Shape(s)
    ensures Shape(t)
  {
    match s.updater
    case Waiting => s.(updater := LoadedCur(s.cur))
    case LoadedCur(c) => s.(updater := Scanning(0, c + (if s.noMore then 1 else 0), NONE))
    case Scanning(i, base, least) =>
      if i < |s.active| then
        s.(updater := Scanning(i + 1, base, Min(least, s.active[i])))
      else
        var found := Min(base, least);
        s.(updater := Decide, minEpoch := if found < s.minEpoch && least != NONE then s.minEpoch else found)
    case Decide =>
      s.(updater := if s.readEpoch + 1 < s.minEpoch then PickTarget else if s.noMore then DecideClosed else Waiting)
    case DecideClosed => s.(updater := if s.readEpoch < s.cur then PickTarget else Waiting)
    case PickTarget => s.(updater := if s.noMore then PickClosed else LoadSlot(s.minEpoch))
    case PickClosed => s.(updater := LoadSlot(s.cur + 1))
    case LoadSlot(target) =>
      if s.readEpochCur < 16 then s.(updater := TestPublish(target, s.ring[s.readEpochCur])) else s
    case TestPublish(target, v) =>
      s.(updater := if s.readEpoch + 1 < target then Transforming(target, v) else Waiting)
    case Transforming(target, v) => Drain(s, v).(updater := Push(target, v))
    case Push(target, v) => s.(updater := BumpEpoch(target), queue := s.queue + [v])
    case BumpEpoch(target) => s.(updater := BumpSlot(target), readEpoch := s.readEpoch + 1)
    case BumpSlot(target) =>
      s.(updater := LoadSlot(target),
         readEpochCur := if s.readEpochCur == 15 then 0 else s.readEpochCur + 1)
  }

  // NoMoreTxn is called once every writer has finished.
  predicate AllIdle(s: State) {
    forall w :: 0 <= w < |s.writers| ==> s.writers[w].Idle?
  }

  function Step(s: State, a: Action): (t: State)
    requires Shape(s)
    ensures Shape(t)
  {
    match a
    case Writer(w, choice) => if w < |s.writers| then StepWriter(s, w, choice) else s
    case Updater => StepUpdater(s)
    case CloseWriters => if AllIdle(s) then s.(noMore := true) else s
  }

  function Exec(s: State, run: seq<Action>): (t: State)
    requires Shape(s)
    ensures Shape(t)
  {
    if run == [] then s else Step(Exec(s, run[..|run| - 1]), run[|run| - 1])
  }

  // ---- The invariant ----

  predicate HoldsFlag(pc: WriterPc) {
    pc.Registered? && (pc.stage.Locked? || pc.stage.Matched? || pc.stage.SlotFilled? || pc.stage.Unlock?)
  }

  // No epoch below this may still be announced by a registered writer the scan has passed.
  function Bound(s: State, w: nat): nat {
    match s.updater
    case Scanning(i, base, least) => if w < i && Min(base, least) > s.minEpoch then Min(base, least) else s.minEpoch
    case _ => s.minEpoch
  }

  ghost predicate StageOk(s: State, e: nat, stage: Stage)
    requires Shape(s)
  {
    match stage
    case HaveCur(c) => e <= c <= s.cur
    case HaveRead(r) => r <= s.readEpoch
    case MayCreate => e == s.cur ==> s.cur - s.readEpoch < 16
    case Locked => e == s.cur ==> s.cur - s.readEpoch < 16
    case Matched => e == s.cur && s.cur - s.readEpoch < 16
    case SlotFilled => e == s.cur && s.cur - s.readEpoch < 16 && s.ring[(s.cur + 1) % 16] == s.cur + 1
    case _ => true
  }

  ghost predicate WriterOk(s: State, w: nat)
    requires Shape(s) && w < |s.writers|
  {
    match s.writers[w]
    case Idle => s.active[w] == NONE
    case LoadCur => !s.noMore
    case CheckWindow(nw) => !s.noMore && 1 <= nw <= s.cur
    case Announce(nw) => !s.noMore && 1 <= nw <= s.cur
    case Recheck(nw) =>
      !s.noMore && s.active[w] == nw && 1 <= nw <= s.cur && (nw < s.cur || nw >= Bound(s, w))
    case Registered(e, stage) =>
      !s.noMore && s.active[w] == e && 1 <= e <= s.cur && e >= Bound(s, w) && StageOk(s, e, stage)
  }

  // At most one writer creates an epoch at a time.
  ghost predicate FlagOk(s: State) {
    && (forall w :: 0 <= w < |s.writers| && HoldsFlag(s.writers[w]) ==> s.isCreate)
    && (forall w, x :: 0 <= w < x < |s.writers| && HoldsFlag(s.writers[w]) ==> !HoldsFlag(s.writers[x]))
  }

  predicate TargetOk(s: State, target: nat) {
    target <= s.minEpoch || (s.noMore && target <= s.cur + 1)
  }

  ghost predicate UpdaterOk(s: State)
    requires Shape(s)
  {
    var closed := if s.noMore then 1 else 0;
    && s.minEpoch <= s.cur + closed
    && match s.updater
       case Waiting => true
       case LoadedCur(c) => s.minEpoch <= c + closed && c <= s.cur
       case Scanning(i, base, least) => i <= |s.active| && s.minEpoch <= base <= s.cur + closed
       case Decide => true
       case DecideClosed => s.noMore
       case PickClosed => s.noMore
       case PickTarget => s.readEpoch + 1 < s.minEpoch || (s.noMore && s.readEpoch < s.cur)
       case LoadSlot(target) => TargetOk(s, target)
       case TestPublish(target, v) => TargetOk(s, target) && (s.readEpoch + 1 < target ==> v == s.readEpoch + 1)
       case Transforming(target, v) => TargetOk(s, target) && s.readEpoch + 1 < target && v == s.readEpoch + 1
       case Push(target, v) => TargetOk(s, target) && s.readEpoch + 1 < target && v == s.readEpoch + 1
       case BumpEpoch(target) => TargetOk(s, target) && s.readEpoch + 1 < target
       case BumpSlot(target) => TargetOk(s, target) && s.readEpoch < target
  }

  // Slot e mod 16 holds epoch e for every unpublished epoch.
  ghost predicate RingOk(s: State)
    requires Shape(s)
  {
    && s.readEpoch <= s.cur <= s.readEpoch + 16 && 1 <= s.cur < TMPVB_MASK
    && (s.readEpoch == 0 || s.readEpoch < s.minEpoch || s.noMore)
    && (forall e :: s.readEpoch < e <= s.cur ==> s.ring[e % 16] == e)
    && s.readEpochCur == (if s.updater.BumpSlot? then s.readEpoch else s.readEpoch + 1) % 16
  }

  ghost predicate QueueOk(s: State) {
    && |s.queue| == s.readEpoch + (if s.updater.BumpEpoch? then 1 else 0)
    && forall i :: 0 <= i < |s.queue| ==> s.queue[i] == i + 1
  }

  // The newest epoch that Transform has been started for.
  function Frontier(s: State): nat {
    s.readEpoch + (if s.updater.Transforming? || s.updater.Push? || s.updater.BumpEpoch? then 1 else 0)
  }

  // A temporary version block with entries belongs to an epoch not transformed yet.
  ghost predicate SlotsOk(s: State)
    requires Shape(s)
  {
    forall i :: 0 <= i < 16 && s.pending[i] > 0 ==>
      && s.stamp[i] % 16 == i
      && s.readEpoch + (if s.updater.Push? || s.updater.BumpEpoch? then 1 else 0) < s.stamp[i] <= s.cur
  }

  ghost predicate Inv(s: State) {
    && Shape(s) && FlagOk(s)
    && (forall w :: 0 <= w < |s.writers| ==> WriterOk(s, w))
    && UpdaterOk(s) && RingOk(s) && QueueOk(s) && SlotsOk(s)
  }

  // ---- Every step keeps it ----

  lemma RingSlotsDiffer(a: nat, b: nat)
    requires a < b < a + 16
    ensures a % 16 != b % 16
  {
  }

  lemma InitOk(threads: nat)
    ensures Inv(Init(threads))
  {
  }

  // What the threads rely on about the shared counters, without any quantifier.
  ghost predicate Counters(s: State) {
    var closed := if s.noMore then 1 else 0;
    && Shape(s)
    && s.readEpoch <= s.cur <= s.readEpoch + 16 && 1 <= s.cur < TMPVB_MASK
    && s.minEpoch <= s.cur + closed
    && (s.updater.Scanning? ==> s.minEpoch <= s.updater.base <= s.cur + closed && s.updater.i <= |s.active|)
  }

  // What an updater step leaves alone.
  ghost predicate UpdaterEffect(s: State, t: State)
    requires Shape(s)
  {
    && Shape(t)
    && t.cur == s.cur && t.noMore == s.noMore && t.isCreate == s.isCreate
    && t.active == s.active && t.writers == s.writers && t.ring == s.ring && t.stamp == s.stamp
    && (s.updater.Scanning? || t.minEpoch == s.minEpoch)
    && t.pending == (if s.updater.Transforming? then Drain(s, s.updater.v).pending else s.pending)
    && t.readEpoch == (if s.updater.BumpEpoch? then s.readEpoch + 1 else s.readEpoch)
    && (s.updater.BumpEpoch? <==> t.updater.BumpSlot?)
    && (s.updater.Push? <==> t.updater.BumpEpoch?)
    && (s.updater.Transforming? <==> t.updater.Push?)
    && (t.updater.Scanning? ==> s.updater.LoadedCur? || s.updater.Scanning?)
    && t.queue == (if s.updater.Push? then s.queue + [s.updater.v] else s.queue)
    && t.readEpochCur == (if !s.updater.BumpSlot? then s.readEpochCur
                          else if s.readEpochCur == 15 then 0 else s.readEpochCur + 1)
  }

  lemma UpdaterMoves(s: State)
    requires Shape(s)
    ensures UpdaterEffect(s, StepUpdater(s))
  {
    match s.updater
    case Waiting =>
    case LoadedCur(_) =>
    case Scanning(_, _, _) =>
    case Decide =>
    case DecideClosed =>
    case PickTarget =>
    case PickClosed =>
    case LoadSlot(_) =>
    case TestPublish(_, _) =>
    case Transforming(_, _) =>
    case Push(_, _) =>
    case BumpEpoch(_) =>
    case BumpSlot(_) =>
  }

  // A scan step raises the bound of a thread only to what it just read from that thread.
  lemma ScanBound(s: State, x: nat)
    requires Counters(s) && UpdaterOk(s) && x < |s.writers|
    ensures var t := StepUpdater(s);
            && (Bound(t, x) <= Bound(s, x) || Bound(t, x) <= s.active[x])
            && Bound(t, x) <= s.cur + (if s.noMore then 1 else 0)
  {
  }

  lemma WriterUnder(s: State, t: State, x: nat)
    requires Counters(s) && UpdaterEffect(s, t) && x < |s.writers| && WriterOk(s, x)
    requires Bound(t, x) <= s.cur + (if s.noMore then 1 else 0)
    requires Bound(t, x) <= Bound(s, x) || Bound(t, x) <= s.active[x]
    ensures WriterOk(t, x)
  {
  }

  lemma UpdaterKeepsWriter(s: State, x: nat)
    requires Counters(s) && UpdaterOk(s) && x < |s.writers| && WriterOk(s, x)
    ensures WriterOk(StepUpdater(s), x)
  {
    UpdaterMoves(s);
    ScanBound(s, x);
    WriterUnder(s, StepUpdater(s), x);
  }

  // Finding the minimum and deciding how far to publish.
  predicate Choosing(pc: UpdaterPc) {
    || pc.Waiting? || pc.LoadedCur? || pc.Scanning? || pc.Decide? || pc.DecideClosed?
    || pc.PickTarget? || pc.PickClosed?
  }

  lemma ScanKeepsUpdater(s: State)
    requires Counters(s) && UpdaterOk(s)
    requires Choosing(s.updater)
    ensures UpdaterOk(StepUpdater(s)) && s.minEpoch <= StepUpdater(s).minEpoch
  {
  }

  lemma PublishKeepsUpdater(s: State)
    requires Counters(s) && UpdaterOk(s) && RingOk(s)
    requires !Choosing(s.updater)
    ensures UpdaterOk(StepUpdater(s)) && s.minEpoch <= StepUpdater(s).minEpoch
  {
  }

  lemma UpdaterKeepsUpdater(s: State)
    requires Counters(s) && UpdaterOk(s) && RingOk(s)
    ensures UpdaterOk(StepUpdater(s)) && s.minEpoch <= StepUpdater(s).minEpoch
  {
    if Choosing(s.updater) {
      ScanKeepsUpdater(s);
    } else {
      PublishKeepsUpdater(s);
    }
  }

  lemma UpdaterKeepsRing(s: State)
    requires Counters(s) && UpdaterOk(s) && RingOk(s)
    ensures RingOk(StepUpdater(s))
  {
    UpdaterMoves(s);
    UpdaterKeepsUpdater(s);
    RingUnder(s, StepUpdater(s));
  }

  lemma RingUnder(s: State, t: State)
    requires Counters(s) && UpdaterOk(s) && RingOk(s) && UpdaterEffect(s, t)
    requires s.minEpoch <= t.minEpoch
    ensures RingOk(t)
  {
  }

  lemma UpdaterKeepsQueue(s: State)
    requires Shape(s) && UpdaterOk(s) && QueueOk(s)
    ensures QueueOk(StepUpdater(s))
  {
    UpdaterMoves(s);
    QueueUnder(s, StepUpdater(s));
  }

  lemma QueueUnder(s: State, t: State)
    requires Shape(s) && UpdaterOk(s) && QueueOk(s) && UpdaterEffect(s, t)
    ensures QueueOk(t)
  {
  }

  lemma UpdaterKeepsSlots(s: State)
    requires Shape(s) && UpdaterOk(s) && SlotsOk(s)
    ensures SlotsOk(StepUpdater(s))
  {
    UpdaterMoves(s);
    SlotsUnder(s, StepUpdater(s));
  }

  lemma SlotsUnder(s: State, t: State)
    requires Shape(s) && UpdaterOk(s) && SlotsOk(s) && UpdaterEffect(s, t)
    ensures SlotsOk(t)
  {
  }

  lemma UpdaterStepKeeps(s: State)
    requires Inv(s)
    ensures Inv(StepUpdater(s))
  {
    UpdaterMoves(s);
    forall x | 0 <= x < |s.writers|
      ensures WriterOk(StepUpdater(s), x)
    {
      UpdaterKeepsWriter(s, x);
    }
    UpdaterKeepsUpdater(s);
    UpdaterKeepsRing(s);
    UpdaterKeepsQueue(s);
    UpdaterKeepsSlots(s);
  }

  predicate InStage(pc: WriterPc, stage: Stage) {
    pc.Registered? && pc.stage == stage
  }

  // What a step of writer w can change at all.
  ghost predicate Effect(s: State, t: State, w: nat)
    requires Shape(s) && Shape(t) && w < |s.writers|
  {
    && |t.writers| == |s.writers|
    && (forall x :: 0 <= x < |s.writers| && x != w ==> t.writers[x] == s.writers[x] && t.active[x] == s.active[x])
    && t.updater == s.updater && t.minEpoch == s.minEpoch && t.noMore == s.noMore
    && t.readEpoch == s.readEpoch && t.readEpochCur == s.readEpochCur && t.queue == s.queue
    && ((t.stamp == s.stamp && t.pending == s.pending) || InStage(s.writers[w], Writing))
    && (t.cur == s.cur || (InStage(s.writers[w], SlotFilled) && t.cur == s.cur + 1 < TMPVB_MASK))
    && (t.ring == s.ring || (InStage(s.writers[w], Matched) &&
                             var e := s.writers[w].e; t.ring == s.ring[(e + 1) % 16 := e + 1]))
    && t.isCreate == (HoldsFlag(t.writers[w]) || (s.isCreate && !HoldsFlag(s.writers[w])))
    && (HoldsFlag(t.writers[w]) ==> t.isCreate && (HoldsFlag(s.writers[w]) || !s.isCreate))
  }

  lemma WindowEffect(s: State, w: nat, choice: bool)
    requires Shape(s) && w < |s.writers| && s.writers[w].Registered? && !HoldsFlag(s.writers[w])
    ensures Effect(s, StepWriter(s, w, choice), w)
  {
    match s.writers[w].stage
    case Entered =>
    case HaveCur(_) =>
    case HaveRead(_) =>
    case MayCreate =>
    case Writing =>
  }

  lemma CreatorEffect(s: State, w: nat, choice: bool)
    requires Shape(s) && w < |s.writers| && HoldsFlag(s.writers[w]) && s.isCreate
    ensures Effect(s, StepWriter(s, w, choice), w)
  {
    match s.writers[w].stage
    case Locked =>
    case Matched =>
    case SlotFilled =>
    case Unlock =>
  }

  lemma WriterEffect(s: State, w: nat, choice: bool)
    requires Shape(s) && w < |s.writers|
    requires HoldsFlag(s.writers[w]) ==> s.isCreate
    ensures Effect(s, StepWriter(s, w, choice), w)
  {
    match s.writers[w]
    case Registered(_, _) =>
      if HoldsFlag(s.writers[w]) {
        CreatorEffect(s, w, choice);
      } else {
        WindowEffect(s, w, choice);
      }
    case _ =>
  }

  lemma WriterKeepsOther(s: State, t: State, w: nat, x: nat)
    requires Counters(s) && Shape(t) && w < |s.writers| && x < |s.writers| && x != w
    requires Effect(s, t, w)
    requires WriterOk(s, w) && WriterOk(s, x)
    requires HoldsFlag(s.writers[w]) ==> !HoldsFlag(s.writers[x])
    ensures WriterOk(t, x)
  {
  }

  lemma FlagKept(s: State, t: State, w: nat)
    requires Shape(s) && Shape(t) && FlagOk(s) && w < |s.writers| && Effect(s, t, w)
    ensures FlagOk(t)
  {
  }

  lemma RingKept(s: State, t: State, w: nat)
    requires Counters(s) && RingOk(s) && Shape(t) && w < |s.writers| && WriterOk(s, w) && Effect(s, t, w)
    ensures RingOk(t)
  {
    forall e | t.readEpoch < e <= t.cur
      ensures t.ring[e % 16] == e
    {
      if e <= s.cur && s.cur - s.readEpoch < 16 {
        RingSlotsDiffer(e, s.cur + 1);
      }
    }
  }

  lemma UpdaterKept(s: State, t: State, w: nat)
    requires Shape(s) && Shape(t) && UpdaterOk(s) && QueueOk(s) && w < |s.writers| && Effect(s, t, w)
    ensures UpdaterOk(t) && QueueOk(t)
  {
  }

  // Up to the flag: the window test holds of the current epoch if it is still the writer's own.
  lemma WindowKeepsItself(s: State, w: nat, choice: bool)
    requires Counters(s) && w < |s.writers| && WriterOk(s, w) && s.writers[w].Registered?
    requires s.writers[w].stage.Entered? || s.writers[w].stage.HaveCur? || s.writers[w].stage.HaveRead?
    ensures WriterOk(StepWriter(s, w, choice), w)
  {
  }

  // Taking the flag, comparing under it, and giving it back.
  lemma FlagKeepsItself(s: State, w: nat, choice: bool)
    requires Counters(s) && w < |s.writers| && WriterOk(s, w) && s.writers[w].Registered?
    requires s.writers[w].stage.MayCreate? || s.writers[w].stage.Locked? || s.writers[w].stage.Unlock?
    ensures WriterOk(StepWriter(s, w, choice), w)
  {
  }

  // Filling the next ring slot and moving cur_ on to it.
  lemma CreatorKeepsItself(s: State, w: nat, choice: bool)
    requires Counters(s) && w < |s.writers| && WriterOk(s, w) && s.writers[w].Registered?
    requires s.writers[w].stage.Matched? || s.writers[w].stage.SlotFilled?
    ensures WriterOk(StepWriter(s, w, choice), w)
  {
  }

  lemma WritingKeepsItself(s: State, w: nat, choice: bool)
    requires Counters(s) && w < |s.writers| && WriterOk(s, w) && InStage(s.writers[w], Writing)
    ensures WriterOk(StepWriter(s, w, choice), w)
  {
    if choice {
      assert StepWriter(s, w, choice).writers == s.writers;
    }
  }

  lemma WriterKeepsItself(s: State, w: nat, choice: bool)
    requires Counters(s) && w < |s.writers| && WriterOk(s, w)
    ensures WriterOk(StepWriter(s, w, choice), w)
  {
    match s.writers[w]
    case Registered(_, stage) =>
      match stage {
        case Writing => WritingKeepsItself(s, w, choice);
        case Entered => WindowKeepsItself(s, w, choice);
        case HaveCur(_) => WindowKeepsItself(s, w, choice);
        case HaveRead(_) => WindowKeepsItself(s, w, choice);
        case Matched => CreatorKeepsItself(s, w, choice);
        case SlotFilled => CreatorKeepsItself(s, w, choice);
        case _ => FlagKeepsItself(s, w, choice);
      }
    case _ =>
  }

  // The heart of publication safety.
  lemma RegisteredAboveFrontier(s: State, w: nat)
    requires Counters(s) && UpdaterOk(s) && RingOk(s) && w < |s.writers| && WriterOk(s, w)
    requires s.writers[w].Registered?
    ensures Frontier(s) < s.writers[w].e <= s.cur
  {
  }

  // Two unpublished epochs never share a slot, so a stale slot has nothing left to lose.
  lemma StaleSlotIsEmpty(s: State, e: nat)
    requires Counters(s) && SlotsOk(s) && s.readEpoch < e <= s.cur && s.stamp[e % 16] != e
    ensures s.pending[e % 16] == 0
  {
    var f := s.stamp[e % 16];
    if s.pending[e % 16] > 0 {
      if f < e {
        RingSlotsDiffer(f, e);
      } else {
        RingSlotsDiffer(e, f);
      }
    }
  }

  lemma TouchKeepsSlots(s: State, e: nat)
    requires Shape(s) && SlotsOk(s) && Frontier(s) < e <= s.cur
    ensures SlotsOk(Touch(s, e))
  {
  }

  lemma SlotsKept(s: State, t: State)
    requires Shape(s) && Shape(t) && SlotsOk(s) && t.stamp == s.stamp && t.pending == s.pending
    requires t.updater == s.updater && t.readEpoch == s.readEpoch && t.cur >= s.cur
    ensures SlotsOk(t)
  {
  }

  // A step that writes nothing leaves the temporary version blocks alone.
  lemma StampsKept(s: State, w: nat, choice: bool)
    requires Shape(s) && w < |s.writers| && (InStage(s.writers[w], Writing) ==> !choice)
    ensures StepWriter(s, w, choice).stamp == s.stamp && StepWriter(s, w, choice).pending == s.pending
  {
  }

  lemma WriterKeepsSlots(s: State, w: nat, choice: bool)
    requires Counters(s) && SlotsOk(s) && UpdaterOk(s) && RingOk(s) && w < |s.writers| && WriterOk(s, w)
    requires HoldsFlag(s.writers[w]) ==> s.isCreate
    ensures SlotsOk(StepWriter(s, w, choice))
  {
    if InStage(s.writers[w], Writing) && choice {
      RegisteredAboveFrontier(s, w);
      TouchKeepsSlots(s, s.writers[w].e);
    } else {
      StampsKept(s, w, choice);
      WriterEffect(s, w, choice);
      SlotsKept(s, StepWriter(s, w, choice));
    }
  }

  lemma WriterStepKeeps(s: State, w: nat, choice: bool)
    requires Inv(s) && w < |s.writers|
    ensures Inv(StepWriter(s, w, choice))
  {
    var t := StepWriter(s, w, choice);
    assert WriterOk(s, w);
    WriterEffect(s, w, choice);
    forall x | 0 <= x < |t.writers|
      ensures WriterOk(t, x)
    {
      assert WriterOk(s, x);
      if x == w {
        WriterKeepsItself(s, w, choice);
      } else {
        WriterKeepsOther(s, t, w, x);
      }
    }
    FlagKept(s, t, w);
    RingKept(s, t, w);
    UpdaterKept(s, t, w);
    WriterKeepsSlots(s, w, choice);
  }

  lemma CloseKeeps(s: State)
    requires Inv(s) && AllIdle(s)
    ensures Inv(s.(noMore := true))
  {
    var t := s.(noMore := true);
    forall x | 0 <= x < |t.writers|
      ensures WriterOk(t, x)
    {
      assert WriterOk(s, x);
    }
  }

  lemma StepKeeps(s: State, a: Action)
    requires Inv(s)
    ensures Inv(Step(s, a))
  {
    match a
    case Writer(w, choice) => if w < |s.writers| { WriterStepKeeps(s, w, choice); }
    case Updater => UpdaterStepKeeps(s);
    case CloseWriters => if AllIdle(s) { CloseKeeps(s); }
  }

  lemma {:induction false} RunKeeps(s: State, run: seq<Action>)
    requires Inv(s)
    ensures Inv(Exec(s, run))
  {
    if run != [] {
      RunKeeps(s, run[..|run| - 1]);
      StepKeeps(Exec(s, run[..|run| - 1]), run[|run| - 1]);
    }
  }

  lemma Reachable(threads: nat, run: seq<Action>)
    ensures Inv(Exec(Init(threads), run))
  {
    InitOk(threads);
    RunKeeps(Init(threads), run);
  }

  // ---- The promises ----

  // A writer that passed its re-check holds an epoch neither published nor being transformed.
  ghost predicate WriterSafe(s: State, w: nat) {
    w < |s.writers| && s.writers[w].Registered? ==>
      var e := s.writers[w].e;
      s.readEpoch < e <= s.cur && (s.updater.Transforming? ==> s.updater.v == s.readEpoch + 1 < e)
  }

  ghost predicate Safe(s: State) {
    forall w {:trigger WriterSafe(s, w)} :: WriterSafe(s, w)
  }

  lemma InvIsSafe(s: State)
    requires Inv(s)
    ensures Safe(s)
  {
    forall w: nat | w < |s.writers| && s.writers[w].Registered?
      ensures WriterSafe(s, w)
    {
      assert WriterOk(s, w);
      RegisteredAboveFrontier(s, w);
    }
  }

  // In every interleaving, until it deregisters.
  lemma PublicationSafety(threads: nat, run: seq<Action>)
    ensures Safe(Exec(Init(threads), run))
  {
    Reachable(threads, run);
    InvIsSafe(Exec(Init(threads), run));
  }

  ghost predicate RingPromise(s: State)
    requires Shape(s)
  {
    && s.readEpoch <= s.cur <= s.readEpoch + 16
    && (forall e :: s.readEpoch < e <= s.cur ==> s.ring[e % 16] == e)
    && (s.updater.Transforming? ==> s.updater.v == s.readEpoch + 1 <= s.cur)
    && (!s.updater.BumpEpoch? ==> s.queue == seq(s.readEpoch, i => i + 1))
    && (!s.updater.BumpSlot? ==> s.readEpochCur == (s.readEpoch + 1) % 16)
  }

  lemma RingFacts(s: State)
    requires Counters(s) && UpdaterOk(s) && RingOk(s) && QueueOk(s)
    ensures RingPromise(s)
  {
  }

  // At most 16 epochs are unpublished, each finds its own VBData in the ring, and the
  // queue receives every published epoch exactly once and in order.
  lemma RingTheorem(threads: nat, run: seq<Action>)
    ensures RingPromise(Exec(Init(threads), run))
  {
    Reachable(threads, run);
    RingFacts(Exec(Init(threads), run));
  }

  // Claiming a temporary version block for a new epoch never discards an unpublished entry.
  lemma ClaimDiscardsNothing(threads: nat, run: seq<Action>, w: nat)
    requires var s := Exec(Init(threads), run); w < |s.writers| && s.writers[w].Registered?
    ensures var s := Exec(Init(threads), run);
            var e := s.writers[w].e;
            s.stamp[e % 16] != e ==> s.pending[e % 16] == 0
  {
    Reachable(threads, run);
    var s := Exec(Init(threads), run);
    assert WriterOk(s, w);
    RegisteredAboveFrontier(s, w);
    var e := s.writers[w].e;
    if s.stamp[e % 16] != e {
      StaleSlotIsEmpty(s, e);
    }
  }

  // Once an epoch is published none of its entries is left in a temporary version block.
  lemma PublishedIsDrained(threads: nat, run: seq<Action>, i: nat)
    requires i < 16 && Exec(Init(threads), run).pending[i] > 0
    ensures Exec(Init(threads), run).stamp[i] > Exec(Init(threads), run).readEpoch
  {
    Reachable(threads, run);
  }

  lemma ExecSnoc(s: State, run: seq<Action>, a: Action)
    requires Shape(s)
    ensures Exec(s, run + [a]) == Step(Exec(s, run), a)
  {
    assert (run + [a])[..|run|] == run;
  }

  // ---- When NoMoreTxn may be called ----

  lemma {:induction false} ExecCons(s: State, a: Action, run: seq<Action>)
    requires Shape(s)
    ensures Exec(s, [a] + run) == Exec(Step(s, a), run)
    decreases |run|
  {
    if run == [] {
      assert [a] + run == [] + [a];
      ExecSnoc(s, [], a);
    } else {
      var front, last := run[..|run| - 1], run[|run| - 1];
      ExecCons(s, a, front);
      assert [a] + run == ([a] + front) + [last];
      ExecSnoc(s, [a] + front, last);
    }
  }

  // What the updater keeps on its own once no_more_txn_ is set, whatever the writers are up to.
  ghost predicate Closed(s: State) {
    Counters(s) && UpdaterOk(s) && RingOk(s) && s.noMore
  }

  // How far the updater is from the next increment of read_epoch_. A publication that began before
  // the close may end early; the next one targets cur_ + 1.
  function Distance(s: State): nat
    requires s.updater.Scanning? ==> s.updater.i <= |s.active|
  {
    var n := |s.active|;
    match s.updater
    case BumpEpoch(_) => 1
    case Push(_, _) => 2
    case Transforming(_, _) => 3
    case TestPublish(target, _) => if target > s.cur then 4 else 14 + n
    case LoadSlot(target) => if target > s.cur then 5 else 15 + n
    case BumpSlot(target) => if target > s.cur then 6 else 16 + n
    case PickClosed => 7
    case PickTarget => 8
    case DecideClosed => 9
    case Decide => 10
    case Scanning(i, _, _) => 11 + n - i
    case LoadedCur(_) => 12 + n
    case Waiting => 13 + n
  }

  lemma ClosedStep(s: State)
    requires Closed(s) && s.readEpoch < s.cur
    ensures var t := StepUpdater(s);
            && Closed(t) && t.cur == s.cur && t.writers == s.writers && t.active == s.active && t.readEpoch <= s.cur
            && (t.readEpoch > s.readEpoch || (t.readEpoch == s.readEpoch && Distance(t) < Distance(s)))
  {
    UpdaterMoves(s);
    UpdaterKeepsUpdater(s);
    UpdaterKeepsRing(s);
  }

  // Left alone after a close, the updater publishes every epoch.
  lemma {:induction false} UpdaterDrains(s: State) returns (run: seq<Action>)
    requires Closed(s)
    ensures var t := Exec(s, run);
            Closed(t) && t.readEpoch == t.cur == s.cur && t.writers == s.writers && t.active == s.active
    decreases s.cur - s.readEpoch, Distance(s)
  {
    run := [];
    if s.readEpoch < s.cur {
      ClosedStep(s);
      var rest := UpdaterDrains(StepUpdater(s));
      ExecCons(s, Updater, rest);
      run := [Updater] + rest;
    }
  }

  // Where a writer stands on its way to being registered, the last first.
  function Ahead(s: State, w: nat): nat
    requires w < |s.writers|
  {
    match s.writers[w]
    case Registered(_, _) => 0
    case Recheck(nw) => if nw == s.cur then 1 else 5
    case Announce(nw) => if nw == s.cur then 2 else 6
    case CheckWindow(nw) => if nw == s.cur then 3 else 7
    case LoadCur => 4
    case Idle => 8
  }

  // On the way to being registered, with an epoch no younger than cur_.
  predicate Registering(s: State, w: nat)
    requires w < |s.writers| == |s.active|
  {
    match s.writers[w]
    case Idle => !s.noMore
    case LoadCur => true
    case CheckWindow(nw) => nw <= s.cur
    case Announce(nw) => nw <= s.cur
    case Recheck(nw) => nw <= s.cur && s.active[w] == nw
    case Registered(_, _) => false
  }

  ghost predicate WindowOpen(s: State) {
    Shape(s) && s.readEpoch <= s.cur < s.readEpoch + 16 && s.cur < TMPVB_MASK
  }

  function AsRegistered(s: State, w: nat): State
    requires w < |s.writers| == |s.active|
  {
    s.(writers := s.writers[w := Registered(s.cur, Entered)], active := s.active[w := s.cur])
  }

  lemma RegisteringStep(s: State, w: nat)
    requires WindowOpen(s) && w < |s.writers| && Registering(s, w)
    ensures var t := StepWriter(s, w, false);
            && WindowOpen(t) && AsRegistered(t, w) == AsRegistered(s, w) && Ahead(t, w) < Ahead(s, w)
            && (Registering(t, w) || t == AsRegistered(s, w))
  {
    var t := StepWriter(s, w, false);
    assert t.writers[w := Registered(s.cur, Entered)] == s.writers[w := Registered(s.cur, Entered)];
    assert t.active[w := s.cur] == s.active[w := s.cur];
  }

  // A writer left alone while the window is open registers in the newest epoch.
  lemma {:induction false} AloneRegisters(s: State, w: nat) returns (run: seq<Action>)
    requires WindowOpen(s) && w < |s.writers| && Registering(s, w)
    ensures Exec(s, run) == AsRegistered(s, w)
    decreases Ahead(s, w)
  {
    var t := StepWriter(s, w, false);
    RegisteringStep(s, w);
    run := [];
    if Registering(t, w) {
      run := AloneRegisters(t, w);
    }
    ExecCons(s, Writer(w, false), run);
    run := [Writer(w, false)] + run;
  }

  lemma {:induction false} ExecConcat(s: State, run: seq<Action>, more: seq<Action>)
    requires Shape(s)
    ensures Exec(s, run + more) == Exec(Exec(s, run), more)
  {
    if more == [] {
      assert run + more == run;
    } else {
      ExecConcat(s, run, more[..|more| - 1]);
      assert (run + more)[..|run + more| - 1] == run + more[..|more| - 1];
    }
  }

  // A writer under way when the writer side is closed ends up in a published epoch.
  lemma UnderWayIsUnsafe(s: State, w: nat) returns (more: seq<Action>)
    requires Closed(s) && w < |s.writers|
    requires Registering(s, w) || (s.writers[w].Registered? && s.writers[w].e <= s.cur)
    ensures !Safe(Exec(s, more))
  {
    more := UpdaterDrains(s);
    var t := Exec(s, more);
    if Registering(s, w) {
      var rest := AloneRegisters(t, w);
      ExecConcat(s, more, rest);
      more := more + rest;
    }
    assert !WriterSafe(Exec(s, more), w);
  }

  lemma CloseIsClosed(s: State)
    requires Inv(s)
    ensures Closed(s.(noMore := true))
  {
  }

  lemma StartIsClosed(s: State, w: nat)
    requires Closed(s) && w < |s.writers|
    ensures Closed(At(s, w, LoadCur))
  {
  }

  // NoMoreTxn is safe in exactly the reachable states in which every writer has finished.
  lemma CloseIsSafeIff(threads: nat, run: seq<Action>)
    ensures var s := Exec(Init(threads), run);
            AllIdle(s) <==> forall more :: Safe(Exec(s.(noMore := true), more))
  {
    var s := Exec(Init(threads), run);
    Reachable(threads, run);
    var t := s.(noMore := true);
    if AllIdle(s) {
      CloseKeeps(s);
      forall more
        ensures Safe(Exec(t, more))
      {
        RunKeeps(t, more);
        InvIsSafe(Exec(t, more));
      }
    } else {
      var w: nat :| w < |s.writers| && !s.writers[w].Idle?;
      assert WriterOk(s, w);
      CloseIsClosed(s);
      var more := UnderWayIsUnsafe(t, w);
    }
  }

  // registerTransaction does not look at no_more_txn_: a writer that starts after the close is never safe.
  lemma LateStartIsUnsafe(threads: nat, run: seq<Action>, w: nat) returns (more: seq<Action>)
    requires w < |Exec(Init(threads), run).writers| && Exec(Init(threads), run).noMore
    ensures !Safe(Exec(At(Exec(Init(threads), run), w, LoadCur), more))
  {
    Reachable(threads, run);
    var s := Exec(Init(threads), run);
    CloseIsClosed(s);
    assert s.(noMore := true) == s;
    StartIsClosed(s, w);
    more := UnderWayIsUnsafe(At(s, w, LoadCur), w);
  }

  lemma OneMore(s: State, run: seq<Action>, at: State, a: Action, next: State) returns (longer: seq<Action>)
    requires Shape(s) && Exec(s, run) == at && Step(at, a) == next
    ensures longer == run + [a] && Exec(s, longer) == next
  {
    longer := run + [a];
    ExecSnoc(s, run, a);
  }

  // ---- The creation flag ----

  ghost predicate FlagHeld(s: State) {
    s.isCreate ==> exists w :: 0 <= w < |s.writers| && HoldsFlag(s.writers[w])
  }

  lemma WriterKeepsFlagHeld(s: State, w: nat, choice: bool)
    requires Inv(s) && w < |s.writers| && FlagHeld(s)
    ensures FlagHeld(StepWriter(s, w, choice))
  {
    WriterEffect(s, w, choice);
    var t := StepWriter(s, w, choice);
    if t.isCreate && !HoldsFlag(t.writers[w]) {
      var x :| 0 <= x < |s.writers| && HoldsFlag(s.writers[x]);
      assert t.writers[x] == s.writers[x];
    }
  }

  // The flag is taken exactly while one writer is creating an epoch, and no two writers are.
  lemma {:induction false} FlagIsHeld(threads: nat, run: seq<Action>)
    ensures var s := Exec(Init(threads), run);
            && (s.isCreate <==> exists w :: 0 <= w < |s.writers| && HoldsFlag(s.writers[w]))
            && forall w, x :: 0 <= w < x < |s.writers| && HoldsFlag(s.writers[w]) ==> !HoldsFlag(s.writers[x])
  {
    Reachable(threads, run);
    if run != [] {
      var front, last := run[..|run| - 1], run[|run| - 1];
      FlagIsHeld(threads, front);
      Reachable(threads, front);
      var s := Exec(Init(threads), front);
      if last.Writer? && last.w < |s.writers| {
        WriterKeepsFlagHeld(s, last.w, last.choice);
      } else if last.Updater? {
        UpdaterMoves(s);
      }
      assert FlagHeld(Exec(Init(threads), run));
    }
  }

  // ---- What the threads achieve ----

  // test1 lets exactly the epochs of the window pass; a stale or an early one is loaded anew.
  lemma WindowDecides(s: State, w: nat, choice: bool)
    requires Shape(s) && w < |s.writers| && s.writers[w].CheckWindow?
    requires s.writers[w].nw <= s.cur < TMPVB_MASK && s.readEpoch < TMPVB_MASK
    ensures var nw := s.writers[w].nw;
            StepWriter(s, w, choice).writers[w] ==
              if s.readEpoch <= nw < s.readEpoch + 16 then Announce(nw) else LoadCur
  {
  }

  // A registered writer that draws the creation while the window is open and the flag is free opens the
  // next epoch: its VBData is in the ring, cur_ has moved to it, and the flag is free again.
  function AsCreated(s: State, w: nat): State
    requires Shape(s) && w < |s.writers| && s.writers[w].Registered?
  {
    s.(cur := s.cur + 1, ring := s.ring[(s.cur + 1) % 16 := s.cur + 1],
       writers := s.writers[w := Registered(s.writers[w].e, Writing)])
  }

  ghost predicate MayOpenEpoch(s: State, w: nat) {
    && WindowOpen(s) && s.cur + 1 < TMPVB_MASK && !s.isCreate
    && w < |s.writers| && s.writers[w] == Registered(s.cur, Entered)
  }

  function Staged(s: State, w: nat, stage: Stage): State
    requires w < |s.writers| && s.writers[w].Registered?
  {
    s.(writers := s.writers[w := Registered(s.writers[w].e, stage)])
  }

  lemma ReachesCreation(s: State, w: nat, first: bool) returns (run: seq<Action>)
    requires MayOpenEpoch(s, w)
    ensures Exec(s, run) == Staged(s, w, MayCreate)
  {
    var seen := if first then HaveCur(s.cur) else HaveRead(s.readEpoch);
    run := OneMore(s, [], s, Writer(w, first), Staged(s, w, seen));
    run := OneMore(s, run, Staged(s, w, seen), Writer(w, true), Staged(s, w, MayCreate));
  }

  lemma TakesTheFlag(s: State, w: nat) returns (run: seq<Action>)
    requires MayOpenEpoch(s, w)
    ensures Exec(Staged(s, w, MayCreate), run) == Staged(s, w, Matched).(isCreate := true)
  {
    var a, b := Staged(s, w, MayCreate), Staged(s, w, Locked).(isCreate := true);
    run := OneMore(a, [], a, Writer(w, true), b);
    run := OneMore(a, run, b, Writer(w, true), Staged(s, w, Matched).(isCreate := true));
  }

  lemma FillsAndCounts(s: State, w: nat) returns (run: seq<Action>)
    requires MayOpenEpoch(s, w)
    ensures Exec(Staged(s, w, Matched).(isCreate := true), run) == AsCreated(s, w)
  {
    var ring := s.ring[(s.cur + 1) % 16 := s.cur + 1];
    var a := Staged(s, w, Matched).(isCreate := true);
    var b := Staged(s, w, SlotFilled).(isCreate := true, ring := ring);
    var c := Staged(s, w, Unlock).(isCreate := true, ring := ring, cur := s.cur + 1);
    run := OneMore(a, [], a, Writer(w, true), b);
    run := OneMore(a, run, b, Writer(w, true), c);
    run := OneMore(a, run, c, Writer(w, true), AsCreated(s, w));
  }

  // In whichever order it loads the two sides of the window test.
  lemma EpochIsCreated(s: State, w: nat, first: bool) returns (run: seq<Action>)
    requires MayOpenEpoch(s, w)
    ensures var t := Exec(s, run);
            && t == AsCreated(s, w) && t.cur == s.cur + 1 && t.ring[t.cur % 16] == t.cur
            && !t.isCreate && t.writers[w] == Registered(s.cur, Writing)
  {
    var a := ReachesCreation(s, w, first);
    var b := TakesTheFlag(s, w);
    var c := FillsAndCounts(s, w);
    ExecConcat(s, a, b);
    ExecConcat(s, a + b, c);
    run := a + b + c;
  }

  // How far a registered writer is from having left.
  function Left(stage: Stage): nat {
    match stage
    case Writing => 1
    case Unlock => 2
    case SlotFilled => 3
    case Matched => 4
    case Locked => 5
    case MayCreate => 6
    case HaveCur(_) => 7
    case HaveRead(_) => 7
    case Entered => 8
  }

  // Incrementing cur_ is the only step on the way out that the end of the epoch numbers could hold up.
  ghost predicate MayLeave(s: State, w: nat) {
    && Shape(s) && w < |s.writers| && s.writers[w].Registered?
    && (s.cur + 1 < TMPVB_MASK || s.writers[w].stage.Unlock? || s.writers[w].stage.Writing?)
  }

  lemma LeavingStep(s: State, w: nat)
    requires MayLeave(s, w)
    ensures var t := StepWriter(s, w, false);
            && |t.writers| == |s.writers|
            && if s.writers[w].stage.Writing? then t.writers[w].Idle? && t.active[w] == NONE
               else MayLeave(t, w) && Left(t.writers[w].stage) < Left(s.writers[w].stage)
  {
  }

  lemma {:induction false} LeavesAlone(s: State, w: nat) returns (run: seq<Action>)
    requires MayLeave(s, w)
    ensures var t := Exec(s, run); |t.writers| == |s.writers| && t.writers[w].Idle? && t.active[w] == NONE
    decreases Left(s.writers[w].stage)
  {
    var t := StepWriter(s, w, false);
    LeavingStep(s, w);
    run := [];
    if !s.writers[w].stage.Writing? {
      run := LeavesAlone(t, w);
    }
    ExecCons(s, Writer(w, false), run);
    run := [Writer(w, false)] + run;
  }

  // A registered writer left alone leaves: no announcement of its own stays behind, nor the flag (FlagIsHeld).
  lemma AloneLeaves(s: State, w: nat) returns (run: seq<Action>)
    requires Inv(s) && MayLeave(s, w)
    ensures var t := Exec(s, run); Inv(t) && |t.writers| == |s.writers| && t.writers[w].Idle? && t.active[w] == NONE
  {
    run := LeavesAlone(s, w);
    RunKeeps(s, run);
  }

  // What the updater keeps on its own while the writer side is open.
  ghost predicate Open(s: State) {
    Counters(s) && UpdaterOk(s) && RingOk(s) && !s.noMore
  }

  function Gap(s: State, target: nat): nat {
    if target <= s.readEpoch then 0 else target - s.readEpoch
  }

  // How far the updater is from waiting again.
  function Remaining(s: State): nat
    requires s.updater.Scanning? ==> s.updater.i <= |s.active|
  {
    match s.updater
    case Waiting => 0
    case BumpEpoch(target) => 6 * Gap(s, target) + 1
    case Push(target, _) => 6 * Gap(s, target) + 2
    case Transforming(target, _) => 6 * Gap(s, target) + 3
    case TestPublish(target, _) => 6 * Gap(s, target) + 4
    case LoadSlot(target) => 6 * Gap(s, target) + 5
    case BumpSlot(target) => 6 * Gap(s, target) + 6
    case PickClosed => 0
    case PickTarget => 6 * Gap(s, s.minEpoch) + 7
    case DecideClosed => 0
    case Decide => 6 * Gap(s, s.minEpoch) + 8
    case Scanning(i, base, _) => 6 * Gap(s, s.cur) + 9 + |s.active| - i
    case LoadedCur(_) => 6 * Gap(s, s.cur) + 10 + |s.active|
  }

  // This turn of the updater publishes every epoch below the bound.
  ghost predicate WillPublish(s: State, bound: nat) {
    match s.updater
    case Waiting => bound <= s.readEpoch + 1
    case LoadedCur(c) => bound <= c && forall x :: 0 <= x < |s.active| ==> bound <= s.active[x]
    case Scanning(i, base, least) =>
      bound <= base && bound <= least && forall x :: i <= x < |s.active| ==> bound <= s.active[x]
    case Decide => bound <= s.minEpoch || bound <= s.readEpoch + 1
    case PickTarget => bound <= s.minEpoch || bound <= s.readEpoch + 1
    case LoadSlot(target) => bound <= target || bound <= s.readEpoch + 1
    case TestPublish(target, _) => bound <= target || bound <= s.readEpoch + 1
    case Transforming(target, _) => bound <= target
    case Push(target, _) => bound <= target
    case BumpEpoch(target) => bound <= target
    case BumpSlot(target) => bound <= target
    case _ => false
  }

  lemma OpenKeeps(s: State)
    requires Open(s)
    ensures var t := StepUpdater(s);
            Open(t) && t.cur == s.cur && t.writers == s.writers && t.active == s.active
  {
    UpdaterMoves(s);
    UpdaterKeepsUpdater(s);
    UpdaterKeepsRing(s);
  }

  lemma WillPublishStep(s: State, bound: nat)
    requires Open(s) && WillPublish(s, bound) && !s.updater.Waiting?
    ensures WillPublish(StepUpdater(s), bound)
  {
  }

  // The updater in the publishing loop, or on its way into it.
  predicate Publishing(pc: UpdaterPc) {
    pc.BumpEpoch? || pc.Push? || pc.Transforming? || pc.TestPublish? || pc.LoadSlot? || pc.BumpSlot?
  }

  lemma PublishingFalls(s: State)
    requires Open(s) && Publishing(s.updater)
    ensures !StepUpdater(s).updater.Scanning? && Remaining(StepUpdater(s)) < Remaining(s)
  {
  }

  lemma ChoosingFalls(s: State)
    requires Open(s) && !Publishing(s.updater) && !s.updater.Waiting?
    ensures Counters(StepUpdater(s)) && Remaining(StepUpdater(s)) < Remaining(s)
  {
    OpenKeeps(s);
  }

  lemma RemainingFalls(s: State)
    requires Open(s) && !s.updater.Waiting?
    ensures Counters(StepUpdater(s)) && Remaining(StepUpdater(s)) < Remaining(s)
  {
    OpenKeeps(s);
    if Publishing(s.updater) {
      PublishingFalls(s);
    } else {
      ChoosingFalls(s);
    }
  }

  lemma {:induction false} TurnPublishes(s: State, bound: nat) returns (run: seq<Action>)
    requires Open(s) && WillPublish(s, bound)
    ensures var t := Exec(s, run);
            && Open(t) && t.updater.Waiting? && bound <= t.readEpoch + 1
            && t.cur == s.cur && t.writers == s.writers && t.active == s.active
    decreases Remaining(s)
  {
    run := [];
    if !s.updater.Waiting? {
      OpenKeeps(s);
      WillPublishStep(s, bound);
      RemainingFalls(s);
      run := TurnPublishes(StepUpdater(s), bound);
      ExecCons(s, Updater, run);
      run := [Updater] + run;
    }
  }

  // From every reachable state with the writer side open the updater on its own publishes every epoch
  // below the newest one and below every announced one.
  lemma PublishesOnline(threads: nat, run: seq<Action>, bound: nat) returns (more: seq<Action>)
    requires var s := Exec(Init(threads), run);
             !s.noMore && bound <= s.cur && forall x :: 0 <= x < |s.active| ==> bound <= s.active[x]
    ensures var s := Exec(Init(threads), run);
            var t := Exec(s, more);
            t.readEpoch + 1 >= bound && t.cur == s.cur && t.writers == s.writers
  {
    var s := Exec(Init(threads), run);
    Reachable(threads, run);
    var back := TurnPublishes(s, 0);
    var u := Exec(s, back);
    OpenKeeps(u);
    var turn := TurnPublishes(StepUpdater(u), bound);
    ExecCons(u, Updater, turn);
    more := back + ([Updater] + turn);
    ExecConcat(s, back, [Updater] + turn);
  }

  // Closing takes effect once every writer has finished, and then everything is published.
  lemma ClosePublishesAll(threads: nat, run: seq<Action>) returns (more: seq<Action>)
    requires AllIdle(Exec(Init(threads), run))
    ensures var s := Step(Exec(Init(threads), run), CloseWriters);
            s.noMore && Exec(s, more).readEpoch == Exec(s, more).cur == s.cur == Exec(Init(threads), run).cur
  {
    Reachable(threads, run);
    var s := Exec(Init(threads), run);
    CloseIsClosed(s);
    more := UpdaterDrains(Step(s, CloseWriters));
  }

  // ---- Closing early, on a concrete run ----

  lemma OneWriterRegisters() returns (run: seq<Action>)
    ensures Exec(Init(1), run) == Init(1).(active := [1], writers := [Registered(1, Entered)])
  {
    var w := Writer(0, false);
    var s := Init(1);
    assert s.writers == [Idle] && s.active == [NONE];
    run := [];
    run := OneMore(s, run, s, w, s.(writers := [LoadCur]));
    run := OneMore(s, run, s.(writers := [LoadCur]), w, s.(writers := [CheckWindow(1)]));
    run := OneMore(s, run, s.(writers := [CheckWindow(1)]), w, s.(writers := [Announce(1)]));
    run := OneMore(s, run, s.(writers := [Announce(1)]), w, s.(active := [1], writers := [Recheck(1)]));
    run := OneMore(s, run, s.(active := [1], writers := [Recheck(1)]), w,
                   s.(active := [1], writers := [Registered(1, Entered)]));
  }

  lemma ClosedScanEnds(s: State) returns (run: seq<Action>)
    requires s == Init(1).(active := [1], writers := [Registered(1, Entered)], noMore := true)
    ensures Exec(s, run) == s.(minEpoch := 1, updater := Decide)
  {
    run := [];
    run := OneMore(s, run, s, Updater, s.(updater := LoadedCur(1)));
    run := OneMore(s, run, s.(updater := LoadedCur(1)), Updater, s.(updater := Scanning(0, 2, NONE)));
    run := OneMore(s, run, s.(updater := Scanning(0, 2, NONE)), Updater, s.(updater := Scanning(1, 2, 1)));
    run := OneMore(s, run, s.(updater := Scanning(1, 2, 1)), Updater, s.(minEpoch := 1, updater := Decide));
  }

  lemma DecisionReachesTransform(s: State) returns (run: seq<Action>)
    requires s == Init(1).(active := [1], writers := [Registered(1, Entered)], noMore := true, minEpoch := 1,
        updater := Decide)
    ensures Exec(s, run) == s.(updater := Transforming(2, 1))
  {
    run := [];
    run := OneMore(s, run, s, Updater, s.(updater := DecideClosed));
    run := OneMore(s, run, s.(updater := DecideClosed), Updater, s.(updater := PickTarget));
    run := OneMore(s, run, s.(updater := PickTarget), Updater, s.(updater := PickClosed));
    run := OneMore(s, run, s.(updater := PickClosed), Updater, s.(updater := LoadSlot(2)));
    run := OneMore(s, run, s.(updater := LoadSlot(2)), Updater, s.(updater := TestPublish(2, 1)));
    run := OneMore(s, run, s.(updater := TestPublish(2, 1)), Updater, s.(updater := Transforming(2, 1)));
  }

  // The guard of CloseWriters is needed: closing while a writer is registered lets the updater
  // transform the very epoch that writer may still write in.
  lemma EarlyCloseBreaksSafety() returns (before: seq<Action>, after: seq<Action>)
    ensures var s := Exec(Init(1), before);
            && !AllIdle(s)
            && var t := Exec(s.(noMore := true), after);
            && |t.writers| == 1 && t.writers[0].Registered?
            && t.updater.Transforming? && t.updater.v == t.writers[0].e
  {
    before := OneWriterRegisters();
    var s := Exec(Init(1), before);
    assert s.writers[0].Registered?;
    var scan := ClosedScanEnds(s.(noMore := true));
    var publish := DecisionReachesTransform(Exec(s.(noMore := true), scan));
    ExecConcat(s.(noMore := true), scan, publish);
    after := scan + publish;
  }
}
