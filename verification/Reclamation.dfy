// Readers against garbage collection (registerROTransaction, update_min_version and GC in
// data-structure/VersionBlock/AllVBManager.cpp). A garbage-collection round is one step. A reader
// registers either in one step, or in three: load read_epoch_, store it in its slot, re-check.
module Reclamation {
  import opened Basics

  // `late` remembers that the store landed after blocks this reader may walk were freed.
  datatype ReaderPc =
    | Idle
    | Store(re: nat)
    | Check(re: nat, late: bool)
    | Reading(re: nat, late: bool)

  datatype State = State(
    readEpoch: nat,
    minRead: nat,             // min_read_epoch
    watermark: nat,           // g_oldest_epoch
    high: nat,                // the largest min_read_epoch any round has freed up to
    queue: seq<nat>,          // vb_que_: published epochs whose blocks are not freed
    active: seq<nat>,         // active_read_epochs
    readers: seq<ReaderPc>)

  datatype Action =
    | Publish
    | GcRound
    | RegisterAtOnce(r: nat)
    | ReaderStep(r: nat)      // load, store or re-check
    | Deregister(r: nat)

  function Least(s: seq<nat>): (m: nat)
    ensures forall i :: 0 <= i < |s| ==> m <= s[i]
    ensures m == NONE || m in s
  {
    if s == [] then NONE
    else
      var m := Least(s[..|s| - 1]);
      assert forall i :: 0 <= i < |s| - 1 ==> s[..|s| - 1][i] == s[i];
      if s[|s| - 1] < m then s[|s| - 1] else m
  }

  // The popping loop of GC.
  function Pop(queue: seq<nat>, minRead: nat): seq<nat> {
    if queue != [] && queue[0] < minRead then Pop(queue[1..], minRead) else queue
  }

  predicate Shape(s: State) {
    |s.active| == |s.readers|
  }

  function Init(threads: nat): (s: State)
    ensures Shape(s)
  {
    State(0, 0, 0, 0, [], Fill(threads, NONE), Fill(threads, Idle))
  }

  function Enter(s: State, r: nat, slot: nat, pc: ReaderPc): (t: State)
    requires Shape(s) && r < |s.readers|
    ensures Shape(t)
  {
    s.(active := s.active[r := slot], readers := s.readers[r := pc])
  }

  // A block is only ever published for epoch 1 or later, so a reader at 0 walks from 1 on.
  predicate Late(s: State, re: nat) {
    Max(re, 1) < s.high
  }

  function StepReader(s: State, r: nat): (t: State)
    requires Shape(s) && r < |s.readers|
    ensures Shape(t)
  {
    match s.readers[r]
    case Idle => Enter(s, r, s.active[r], Store(s.readEpoch))
    case Store(re) => Enter(s, r, re, Check(re, Late(s, re)))
    case Check(re, late) =>
      Enter(s, r, s.active[r], if re < s.minRead then Store(s.readEpoch) else Reading(re, late))
    case Reading(_, _) => s
  }

  function Collect(s: State): (t: State)
    requires Shape(s)
    ensures Shape(t)
  {
    var m := Min(s.readEpoch, Least(s.active));
    s.(minRead := m, watermark := m, high := Max(s.high, m), queue := Pop(s.queue, m))
  }

  function Step(s: State, a: Action): (t: State)
    requires Shape(s)
    ensures Shape(t)
  {
    match a
    case Publish =>
      if s.readEpoch + 1 < NONE then s.(readEpoch := s.readEpoch + 1, queue := s.queue + [s.readEpoch + 1]) else s
    case GcRound => Collect(s)
    case RegisterAtOnce(r) =>
      if r < |s.readers| && s.readers[r].Idle? && s.readEpoch >= s.minRead
      then Enter(s, r, s.readEpoch, Reading(s.readEpoch, Late(s, s.readEpoch))) else s
    case ReaderStep(r) => if r < |s.readers| then StepReader(s, r) else s
    case Deregister(r) =>
      if r < |s.readers| && s.readers[r].Reading? then Enter(s, r, NONE, Idle) else s
  }

  function Exec(s: State, run: seq<Action>): (t: State)
    requires Shape(s)
    ensures Shape(t)
  {
    if run == [] then s else Step(Exec(s, run[..|run| - 1]), run[|run| - 1])
  }

  // ---- Invariant ----

  ghost predicate ReaderOk(s: State, r: nat)
    requires Shape(s) && r < |s.readers|
  {
    match s.readers[r]
    case Idle => true
    case Store(re) => re <= s.readEpoch
    case Check(re, late) => re <= s.readEpoch && s.active[r] == re && (late <==> Late(s, re))
    case Reading(re, late) => re <= s.readEpoch && s.active[r] == re && (late <==> Late(s, re))
  }

  // Blocks are freed in epoch order: what is left starts at the high mark.
  ghost predicate QueueOk(s: State) {
    && s.high <= s.readEpoch < NONE && s.minRead <= s.readEpoch
    && |s.queue| == s.readEpoch + 1 - Max(s.high, 1)
    && forall i :: 0 <= i < |s.queue| ==> s.queue[i] == Max(s.high, 1) + i
  }

  ghost predicate Inv(s: State) {
    Shape(s) && QueueOk(s) && forall r :: 0 <= r < |s.readers| ==> ReaderOk(s, r)
  }

  lemma {:induction false} PopKeepsTheRest(queue: seq<nat>, first: nat, m: nat)
    requires forall i :: 0 <= i < |queue| ==> queue[i] == first + i
    requires m <= first + |queue|
    ensures Pop(queue, m) == if m <= first then queue else queue[m - first..]
  {
    if queue != [] && queue[0] < m {
      PopKeepsTheRest(queue[1..], first + 1, m);
    }
  }

  lemma CollectKeeps(s: State)
    requires Inv(s)
    ensures Inv(Collect(s))
  {
    var t := Collect(s);
    var m := t.minRead;
    PopKeepsTheRest(s.queue, Max(s.high, 1), m);
    forall r | 0 <= r < |t.readers|
      ensures ReaderOk(t, r)
    {
      assert ReaderOk(s, r);
      assert m <= s.active[r];
    }
  }

  lemma StepKeeps(s: State, a: Action)
    requires Inv(s)
    ensures Inv(Step(s, a))
  {
    if a.GcRound? {
      CollectKeeps(s);
    } else {
      var t := Step(s, a);
      forall r | 0 <= r < |t.readers|
        ensures ReaderOk(t, r)
      {
        assert ReaderOk(s, r);
      }
    }
  }

  lemma {:induction false} Reachable(threads: nat, run: seq<Action>)
    ensures Inv(Exec(Init(threads), run))
  {
    if run != [] {
      Reachable(threads, run[..|run| - 1]);
      StepKeeps(Exec(Init(threads), run[..|run| - 1]), run[|run| - 1]);
    }
  }

  // Every block a reader at `re` may walk (its epoch is at least re) is still allocated.
  ghost predicate BlocksAlive(s: State, re: nat) {
    forall e :: Max(re, 1) <= e <= s.readEpoch ==> e in s.queue
  }

  lemma AliveIffNotLate(s: State, r: nat)
    requires Inv(s) && r < |s.readers| && s.readers[r].Reading?
    ensures BlocksAlive(s, s.readers[r].re) <==> !s.readers[r].late
  {
    assert ReaderOk(s, r);
    var re := s.readers[r].re;
    if s.readers[r].late {
      assert Max(re, 1) !in s.queue;
    } else {
      forall e | Max(re, 1) <= e <= s.readEpoch
        ensures e in s.queue
      {
        assert s.queue[e - Max(s.high, 1)] == e;
      }
    }
  }

  // Exactly when the split registration is safe: an accepted reader keeps all its blocks, for as
  // long as it reads, if and only if its store landed before a round freed one of them.
  lemma ReaderSafeIff(threads: nat, run: seq<Action>, r: nat)
    requires var s := Exec(Init(threads), run); r < |s.readers| && s.readers[r].Reading?
    ensures var s := Exec(Init(threads), run);
            BlocksAlive(s, s.readers[r].re) <==> !s.readers[r].late
  {
    Reachable(threads, run);
    AliveIffNotLate(Exec(Init(threads), run), r);
  }

  // ---- Registration in one step ----

  predicate AtOnce(run: seq<Action>) {
    forall i :: 0 <= i < |run| ==> !run[i].ReaderStep?
  }

  ghost predicate Pinned(s: State) {
    && Inv(s) && s.watermark == s.minRead == s.high
    && (forall r :: 0 <= r < |s.readers| ==>
         (s.readers[r].Idle? && s.active[r] == NONE) ||
         (s.readers[r].Reading? && s.watermark <= s.readers[r].re == s.active[r]))
  }

  lemma PinnedStep(s: State, a: Action)
    requires Pinned(s) && !a.ReaderStep?
    ensures Pinned(Step(s, a)) && s.watermark <= Step(s, a).watermark
  {
    StepKeeps(s, a);
    if a.GcRound? {
      var m := Least(s.active);
      if m != NONE {
        var r :| 0 <= r < |s.active| && s.active[r] == m;
        assert s.watermark <= m;
      }
    }
  }

  lemma {:induction false} PinnedReachable(threads: nat, run: seq<Action>)
    requires AtOnce(run)
    ensures Pinned(Exec(Init(threads), run))
  {
    if run != [] {
      PinnedReachable(threads, run[..|run| - 1]);
      PinnedStep(Exec(Init(threads), run[..|run| - 1]), run[|run| - 1]);
    }
  }

  lemma PinnedKeepsBlocks(s: State, r: nat)
    requires Pinned(s) && r < |s.readers| && s.readers[r].Reading?
    ensures s.watermark <= s.readers[r].re && BlocksAlive(s, s.readers[r].re)
  {
    assert ReaderOk(s, r);
    AliveIffNotLate(s, r);
  }

  // The watermark never decreases, no registered reader is below it, and none loses a block.
  lemma {:induction false} AtOnceIsSafe(threads: nat, run: seq<Action>, k: nat)
    requires AtOnce(run) && k <= |run|
    ensures Exec(Init(threads), run[..k]).watermark <= Exec(Init(threads), run).watermark
    ensures var s := Exec(Init(threads), run);
            forall r :: 0 <= r < |s.readers| && s.readers[r].Reading? ==>
              s.watermark <= s.readers[r].re && BlocksAlive(s, s.readers[r].re)
    decreases |run|
  {
    PinnedReachable(threads, run);
    var s := Exec(Init(threads), run);
    forall r | 0 <= r < |s.readers| && s.readers[r].Reading?
      ensures BlocksAlive(s, s.readers[r].re)
    {
      PinnedKeepsBlocks(s, r);
    }
    if k == |run| {
      assert run[..k] == run;
    } else {
      var front := run[..|run| - 1];
      assert front[..k] == run[..k];
      AtOnceIsSafe(threads, front, k);
      PinnedReachable(threads, front);
      PinnedStep(Exec(Init(threads), front), run[|run| - 1]);
    }
  }

  // ---- What each operation achieves ----

  // How far a round frees: up to the newest published epoch or the oldest announced one, and no less.
  // The queue keeps exactly the epochs from that bound on.
  lemma RoundBound(s: State)
    requires Inv(s)
    ensures var t := Collect(s);
            var m := t.watermark;
            && m <= s.readEpoch && (forall r :: 0 <= r < |s.active| ==> m <= s.active[r])
            && (m == s.readEpoch || m in s.active)
            && (forall e :: e in t.queue <==> e in s.queue && e >= m)
            && t.minRead == m && t.readEpoch == s.readEpoch && t.readers == s.readers && t.active == s.active
  {
    var m := Collect(s).watermark;
    PopKeepsTheRest(s.queue, Max(s.high, 1), m);
    assert forall i :: 0 <= i < |s.active| ==> m <= s.active[i];
    forall e
      ensures e in Collect(s).queue <==> e in s.queue && e >= m
    {
      if e in s.queue {
        var i :| 0 <= i < |s.queue| && s.queue[i] == e;
        if e >= m && m > Max(s.high, 1) {
          assert Collect(s).queue[i - (m - Max(s.high, 1))] == e;
        }
      }
    }
  }

  // With registration in one step the bound is the newest published epoch or a registered reader's.
  lemma PinnedRoundBound(s: State)
    requires Pinned(s)
    ensures var t := Collect(s);
            var m := t.watermark;
            && m <= s.readEpoch && (forall r :: 0 <= r < |s.readers| && s.readers[r].Reading? ==> m <= s.readers[r].re)
            && (m == s.readEpoch || exists r :: 0 <= r < |s.readers| && s.readers[r].Reading? && s.readers[r].re == m)
            && (forall e :: e in t.queue <==> Max(m, 1) <= e <= s.readEpoch)
  {
    RoundBound(s);
    PinnedStep(s, GcRound);
    var t := Collect(s);
    var m := t.watermark;
    if m != s.readEpoch {
      var r :| 0 <= r < |s.active| && s.active[r] == m;
      assert s.readers[r].Reading?;
    }
    forall e | Max(m, 1) <= e <= s.readEpoch
      ensures e in t.queue
    {
      assert t.queue[e - Max(t.high, 1)] == e;
    }
  }

  // Registering in one step hands out the newest published epoch.
  lemma RegistersAtNewest(s: State, r: nat)
    requires Inv(s) && r < |s.readers| && s.readers[r].Idle?
    ensures Step(s, RegisterAtOnce(r)) ==
              s.(active := s.active[r := s.readEpoch], readers := s.readers[r := Reading(s.readEpoch, false)])
  {
  }

  // So does registering in three steps if nothing comes between them.
  lemma SplitRegistersAtNewest(s: State, r: nat)
    requires Inv(s) && r < |s.readers| && s.readers[r].Idle?
    ensures Step(Step(Step(s, ReaderStep(r)), ReaderStep(r)), ReaderStep(r)) == Step(s, RegisterAtOnce(r))
  {
    var a := Step(s, ReaderStep(r));
    var b := Step(a, ReaderStep(r));
    var c := Step(b, ReaderStep(r));
    assert b.active == s.active[r := s.readEpoch];
    assert c.readers == s.readers[r := Reading(s.readEpoch, false)];
    RegistersAtNewest(s, r);
  }

  // The re-check turns a reader away exactly if a round has meanwhile passed its epoch; it then starts
  // over with the newest one.
  lemma RecheckDecides(s: State, r: nat)
    requires Inv(s) && r < |s.readers| && s.readers[r].Check?
    ensures var re := s.readers[r].re;
            Step(s, ReaderStep(r)).readers[r] ==
              if re < s.minRead then Store(s.readEpoch) else Reading(re, s.readers[r].late)
  {
  }

  // A reader that leaves holds nothing back any more.
  lemma DeregisterReleases(s: State, r: nat)
    requires Inv(s) && r < |s.readers| && s.readers[r].Reading?
    ensures Step(s, Deregister(r)) == s.(active := s.active[r := NONE], readers := s.readers[r := Idle])
  {
  }

  // ---- Registration in three steps can lose a block ----

  lemma ExecSnoc(s: State, run: seq<Action>, a: Action)
    requires Shape(s)
    ensures Exec(s, run + [a]) == Step(Exec(s, run), a)
  {
    assert (run + [a])[..|run|] == run;
  }

  // One reader has loaded epoch 1 and stalls; epochs 2 and 3 are published meanwhile.
  function Stalled(): State {
    Init(1).(readEpoch := 3, queue := [1, 2, 3], readers := [Store(1)])
  }

  // A round then frees epochs 1 and 2.
  function Collected(): State {
    Stalled().(minRead := 3, watermark := 3, high := 3, queue := [3])
  }

  lemma StalledIsReached()
    ensures Exec(Init(1), [Publish, ReaderStep(0), Publish, Publish]) == Stalled()
  {
    var i := Init(1);
    assert i.readers == [Idle];
    ExecSnoc(i, [], Publish);
    ExecSnoc(i, [Publish], ReaderStep(0));
    ExecSnoc(i, [Publish, ReaderStep(0)], Publish);
    ExecSnoc(i, [Publish, ReaderStep(0), Publish], Publish);
    assert [Publish] == [] + [Publish];
    assert [Publish, ReaderStep(0)] == [Publish] + [ReaderStep(0)];
    assert [Publish, ReaderStep(0), Publish] == [Publish, ReaderStep(0)] + [Publish];
    assert [Publish, ReaderStep(0), Publish, Publish] == [Publish, ReaderStep(0), Publish] + [Publish];
  }

  lemma CollectionFollows()
    ensures Step(Stalled(), GcRound) == Collected()
  {
    assert Stalled().active == [NONE];
    PopKeepsTheRest([1, 2, 3], 1, 3);
    assert Least(Stalled().active) == NONE;
  }

  // The late store pulls the watermark back, and the re-check accepts it.
  lemma LateStoreIsAccepted()
    ensures var stored := Step(Collected(), ReaderStep(0));
            var pulled := Step(stored, GcRound);
            && pulled.watermark == 1 && pulled.queue == [3]
            && Step(pulled, ReaderStep(0)) == pulled.(readers := [Reading(1, true)])
  {
    var stored := Collected().(active := [1], readers := [Check(1, true)]);
    assert Collected().active == [NONE];
    assert Step(Collected(), ReaderStep(0)) == stored;
    PopKeepsTheRest([3], 3, 1);
    assert Least(stored.active) == 1;
  }

  // A reader loads epoch 1 and stalls; a round frees epochs 1 and 2; the reader's store then pulls
  // the watermark back from 3 to 1 and the re-check accepts it, with epoch 1's blocks gone.
  lemma SplitRegistrationLosesBlocks() returns (run: seq<Action>, more: seq<Action>)
    ensures var s := Exec(Init(1), run);
            var t := Exec(Init(1), run + more);
            && t.readers == [Reading(1, true)] && 1 !in t.queue
            && t.watermark == 1 < s.watermark
  {
    var i, stalled := Init(1), [Publish, ReaderStep(0), Publish, Publish];
    StalledIsReached();
    CollectionFollows();
    ExecSnoc(i, stalled, GcRound);
    run := stalled + [GcRound];
    LateStoreIsAccepted();
    ExecSnoc(i, run, ReaderStep(0));
    ExecSnoc(i, run + [ReaderStep(0)], GcRound);
    ExecSnoc(i, run + [ReaderStep(0)] + [GcRound], ReaderStep(0));
    more := [ReaderStep(0), GcRound, ReaderStep(0)];
    assert run + more == run + [ReaderStep(0)] + [GcRound] + [ReaderStep(0)];
  }
}
