/** stop terminates: from the moment it has told the workers to finish, any run without new
    pushes is bounded, and cannot get stuck before stop returns. */
module PoolShutdown {
  import opened Basics
  import opened Pool
  import opened PoolInvariant
  import opened PoolRuns
  import opened PoolTheorems

  /** An upper bound on what a worker that has been told to finish can still do by itself. */
  function Rank(w: Worker): (n: nat) {
    match w.pc
    case Exited => 0
    case Unlocking(got) => if got.Some? then 11 else 1
    case Leaving(got) => if got.Some? then 12 else 2
    case ReadFlag => if w.flag then 3 else 11
    case ReadDone => 4
    case Check(_) => 5
    case Locked => 6
    case WantLock => 7
    case Woken => 8
    case Asleep => 9
    case WillSleep => 10
    case Popping => 8
    case Repop(_) => 8
    case Ran(_) => 9
    case Running(_) => 10
  }

  function Ranks(ws: seq<Worker>): (n: nat) {
    if ws == [] then 0 else Ranks(ws[..|ws| - 1]) + Rank(ws[|ws| - 1])
  }

  lemma {:induction false} RanksUpdate(ws: seq<Worker>, i: nat, w: Worker)
    requires i < |ws|
    ensures Ranks(ws[i := w]) + Rank(ws[i]) == Ranks(ws) + Rank(w)
  {
    hide Rank;
    var n := |ws| - 1;
    if i == n {
      assert ws[i := w][..n] == ws[..n];
    } else {
      RanksUpdate(ws[..n], i, w);
      assert ws[i := w][..n] == ws[..n][i := w];
    }
  }

  lemma {:induction false} RanksBelow(ws: seq<Worker>, ws': seq<Worker>)
    requires |ws| == |ws'| && forall i :: 0 <= i < |ws| ==> Rank(ws'[i]) <= Rank(ws[i])
    ensures Ranks(ws') <= Ranks(ws)
  {
    hide Rank;
    if ws == [] {
    } else {
      RanksBelow(ws[..|ws| - 1], ws'[..|ws| - 1]);
    }
  }

  function PushRank(s: State): (n: int) {
    3 * |s.inflight|
    + (if s.mutex.Some? && s.mutex.value.P? then (if s.mutex.value.t in s.inflight then -1 else 1) else 0)
  }

  function CtlRank(s: State): (n: int) {
    match s.ctl
    case WantNotify(_) => |s.threads| + 7
    case Notifying(_) => |s.threads| + 6
    case Notified(_) => |s.threads| + 5
    case Joining(next) => |s.threads| - next + 3
    case FinalClear => 2
    case ClearVectors => 1
    case _ => 0
  }

  function Measure(s: State): (n: int) {
    13 * |s.queue| + Ranks(s.workers) + PushRank(s) + CtlRank(s)
  }

  lemma {:induction false} MeasureIsNatural(s: State)
    requires VectorsOk(s)
    ensures Measure(s) >= 0
  {
    if s.mutex.Some? && s.mutex.value.P? && s.mutex.value.t in s.inflight {
      assert s.inflight == (s.inflight - {s.mutex.value.t}) + {s.mutex.value.t};
    }
  }

  lemma {:induction false} DecideRank(w: Worker, front: Option<Task>, isDone: bool)
    requires Acting(w) && (isDone || w.flag)
    ensures var a := Decide(w, front, isDone);
      Rank(Acted(w, a)) < Rank(w) + (if a.takes then 13 else 0)
  {
  }

  /** Everyone who has not exited has been told to finish. */
  lemma {:induction false} AllTold(s: State, i: nat)
    requires Inv(s) && StopWaits(s.ctl) && i < |s.workers|
    ensures s.isDone || s.workers[i].flag || s.workers[i].pc.Exited?
  {
    assert WorkerAbortOk(s.workers[i]);
    if !s.isDone && i in s.threads {
      var k :| 0 <= k < |s.threads| && s.threads[k] == i;
      assert StagesOk(s) && FlagsSet(s);
    }
  }

  lemma {:induction false} DecreasesW(s: State, i: nat)
    requires Inv(s) && StopWaits(s.ctl) && WorkerCanStep(s, i)
    ensures Measure(WorkerNext(s, i)) < Measure(s)
  {
    hide Inv, Decide, Rank, Ranks;
    var w := s.workers[i];
    AllTold(s, i);
    DecideRank(w, Front(s), s.isDone);
    DecideTakes(w, Front(s), s.isDone);
    MutexAfter(s, i);
    RanksUpdate(s.workers, i, WorkerNext(s, i).workers[i]);
  }

  lemma {:induction false} MutexAfter(s: State, i: nat)
    requires Inv(s) && WorkerCanStep(s, i)
    ensures PushRank(WorkerNext(s, i)) == PushRank(s)
  {
    hide Decide;
    assert MutexOk(s);
    DecideMutex(s.workers[i], Front(s), s.isDone);
  }

  lemma {:induction false} DecreasesC(s: State)
    requires StopWaits(s.ctl) && CtlCanStep(s) && VectorsOk(s) && MutexOk(s)
    ensures var s' := CtlNext(s); Measure(s') < Measure(s) && (StopWaits(s'.ctl) || s'.ctl.Idle?)
  {
    hide Ranks;
    if s.ctl.Notifying? {
      RanksBelow(s.workers, CtlNext(s).workers);
    }
  }

  lemma {:induction false} DecreasesX(s: State, step: Step)
    requires StopWaits(s.ctl) && Enabled(s, step) && External(step) && !step.Push?
    ensures Measure(Next(s, step)) < Measure(s) && Next(s, step).ctl == s.ctl
  {
    ExternalWake(s, step);
    ExternalQueue(s, step);
    PushRankX(s, step);
    ExternalFrame(s, step);
    hide Ranks, Next, Enabled, PushRank;
    if Wakes(step).Some? {
      RanksUpdate(s.workers, Wakes(step).value, Next(s, step).workers[Wakes(step).value]);
    }
  }

  lemma {:induction false} PushRankX(s: State, step: Step)
    requires StopWaits(s.ctl) && Enabled(s, step) && External(step) && !step.Push?
    ensures PushRank(Next(s, step)) <= PushRank(s)
    ensures step.PushLock? || step.PushNotify? || step.PushUnlock? ==> PushRank(Next(s, step)) < PushRank(s)
    ensures !step.CallResize? && !step.CallStop?
  {
    hide WorkerNext, CtlNext, SomeAsleep;
    if step.PushNotify? {
      assert s.inflight == (s.inflight - {step.t}) + {step.t};
    }
  }

  /** Every step but a new push brings the pool closer to the return of stop. */
  lemma {:induction false} StopProgress(s: State, step: Step)
    requires Inv(s) && StopWaits(s.ctl) && Enabled(s, step) && !step.Push?
    ensures Measure(Next(s, step)) < Measure(s)
    ensures StopWaits(Next(s, step).ctl) || Next(s, step).ctl.Idle?
  {
    hide Measure, CtlNext, WorkerNext;
    if step.WorkerStep? {
      DecreasesW(s, step.i);
      StaysW(s, step.i);
    } else if step.CtlStep? {
      DecreasesC(s);
    } else {
      DecreasesX(s, step);
    }
  }

  lemma {:induction false} StaysW(s: State, i: nat)
    requires WorkerCanStep(s, i)
    ensures WorkerNext(s, i).ctl == s.ctl
  {
    hide Decide;
  }

  /** While stop has not returned, some thread of the pool, or a push under way, can move. */
  lemma {:induction false} NeverStuck(s: State) returns (step: Step)
    requires Reachable(s) && StopWaits(s.ctl)
    ensures Enabled(s, step)
    ensures step.WorkerStep? || step.CtlStep? || step.PushNotify? || step.PushUnlock?
  {
    ReachableInv(s);
    if CtlCanStep(s) {
      step := CtlStep;
    } else if s.mutex.Some? {
      step := HolderCanStep(s);
    } else {
      var i := s.threads[s.ctl.next];
      assert !s.workers[i].pc.Exited?;
      NotAsleepInJoin(s, i);
      step := WorkerStep(i);
    }
  }

  lemma {:induction false} HolderCanStep(s: State) returns (step: Step)
    requires MutexOk(s) && s.mutex.Some? && s.mutex != Some(C)
    ensures Enabled(s, step)
    ensures if s.mutex.value.W? then step == WorkerStep(s.mutex.value.i) else step.PushNotify? || step.PushUnlock?
  {
    match s.mutex.value
    case W(i) =>
      step := WorkerStep(i);
    case P(t) =>
      if t !in s.inflight {
        step := PushUnlock(t);
      } else if SomeAsleep(s) {
        var i: nat :| IsAsleep(s, i);
        step := PushNotify(t, Some(i));
      } else {
        step := PushNotify(t, None);
      }
  }

  /** While tasks are queued and some worker has not ended, some thread of the pool can move without a
      spurious wake-up, a new push or a call. */
  lemma {:induction false} WorkNeverStuck(s: State, i: nat) returns (step: Step)
    requires Reachable(s) && s.queue != [] && i < |s.workers| && !s.workers[i].pc.Exited?
    ensures Enabled(s, step)
    ensures step.WorkerStep? || step.PushLock? || step.PushNotify? || step.PushUnlock? || step.CtlStep?
  {
    MutexPart(s);
    if s.mutex == Some(C) {
      step := CtlStep;
    } else if s.mutex.Some? {
      step := HolderCanStep(s);
    } else if j: nat :| j < |s.workers| && Acting(s.workers[j]) {
      step := WorkerStep(j);
    } else {
      assert IsAsleep(s, i);
      NoLostWakeup(s);
      if Count(s.workers, Rewoken) >= 1 {
        var j := CountWitness(s.workers, Rewoken);
        assert false;
      }
      var t: Task :| t in s.inflight;
      step := PushLock(t);
    }
  }

  lemma {:induction false} MutexPart(s: State)
    requires Reachable(s)
    ensures MutexOk(s)
  {
    ReachableInv(s);
  }

  lemma {:induction false} NotAsleepInJoin(s: State, i: nat)
    requires Inv(s) && s.ctl.Joining? && i < |s.workers| && i in s.threads
    ensures !s.workers[i].pc.Asleep?
  {
    assert WorkerAbortOk(s.workers[i]);
    assert NoSleepOk(s);
  }

  ghost predicate NoPush(steps: seq<Step>) {
    forall k :: 0 <= k < |steps| ==> !steps[k].Push?
  }

  /** Any run of Measure(s) steps without a new push contains the return of stop: some prefix
      of it leads to a state in which the controller is idle again. */
  lemma {:induction false} StopReturns(s: State, steps: seq<Step>, s': State)
    requires Reachable(s) && StopWaits(s.ctl)
    requires Reaches(s, steps, s') && NoPush(steps) && |steps| >= Measure(s)
    ensures exists k, m :: 0 <= k <= |steps| && Reaches(s, steps[..k], m) && m.ctl.Idle?
  {
    hide Inv, Reachable, Reaches;
    ReachableInv(s);
    var k, m := BoundedStop(s, steps, s');
  }

  lemma {:induction false} BoundedStop(s: State, steps: seq<Step>, s': State) returns (k: nat, m: State)
    requires Inv(s) && StopWaits(s.ctl)
    requires Reaches(s, steps, s') && NoPush(steps) && |steps| >= Measure(s)
    ensures k <= |steps| && Reaches(s, steps[..k], m) && m.ctl.Idle?
    decreases |steps|
  {
    hide Inv, Next, Enabled, Measure;
    MeasurePositive(s);
    var n := Next(s, steps[0]);
    StopProgress(s, steps[0]);
    InvKept(s, steps[0]);
    if n.ctl.Idle? {
      k, m := 1, n;
      assert steps[..1][1..] == [] && Reaches(n, [], n);
    } else {
      k, m := BoundedStop(n, steps[1..], s');
      assert steps[..k + 1][1..] == steps[1..][..k];
      k := k + 1;
    }
  }

  lemma {:induction false} MeasurePositive(s: State)
    requires Inv(s) && StopWaits(s.ctl)
    ensures Measure(s) > 0
  {
    MeasureIsNatural(s.(ctl := Idle));
  }

  // ---- before stop notifies ----

  /** stop(false) is setting flags or clearing the queue; the workers may still do what they like. */
  predicate Preparing(ctl: Ctl) { ctl.StopFlagging? || ctl.StopClearing? }

  /** The steps that stop has to make itself before it locks the mutex. */
  function Ahead(s: State): (n: int) {
    match s.ctl
    case StopFlagging(next) => |s.threads| - next + |s.queue| + 2
    case StopClearing => |s.queue| + 1
    case _ => 0
  }

  /** More than the measure can be once the preparations are over. */
  function Bound(s: State): (n: nat) {
    13 * |s.queue| + 12 * |s.workers| + 3 * |s.inflight| + |s.threads| + 8
  }

  lemma {:induction false} RanksBounded(ws: seq<Worker>)
    ensures Ranks(ws) <= 12 * |ws|
  {
    if ws == [] {
    } else {
      RanksBounded(ws[..|ws| - 1]);
    }
  }

  lemma {:induction false} MeasureBounded(s: State)
    requires VectorsOk(s)
    ensures Measure(s) <= Bound(s)
  {
    hide Ranks;
    RanksBounded(s.workers);
  }

  lemma {:induction false} PreparesC(s: State)
    requires VectorsOk(s) && Preparing(s.ctl)
    ensures CtlCanStep(s)
    ensures var s' := CtlNext(s);
      Ahead(s') < Ahead(s) && Bound(s') <= Bound(s) && (Preparing(s'.ctl) || s'.ctl == WantNotify(ThenJoin))
  {
  }

  lemma {:induction false} PreparesX(s: State, step: Step)
    requires Preparing(s.ctl) && Enabled(s, step) && External(step) && !step.Push?
    ensures Next(s, step).ctl == s.ctl && Ahead(Next(s, step)) <= Ahead(s) && Bound(Next(s, step)) <= Bound(s)
  {
    hide CtlNext, SomeAsleep;
    if step.PushNotify? {
      assert s.inflight == (s.inflight - {step.t}) + {step.t};
    }
  }

  /** Each step of stop itself, which nothing can block, brings it closer to notifying; no other
      step but a push takes it further away. */
  lemma {:induction false} PrepareProgress(s: State, step: Step)
    requires Inv(s) && Preparing(s.ctl) && Enabled(s, step) && !step.Push?
    ensures CtlCanStep(s)
    ensures var s' := Next(s, step);
      && (if step.CtlStep? then Ahead(s') < Ahead(s) && (Preparing(s'.ctl) || StopWaits(s'.ctl))
          else Ahead(s') <= Ahead(s) && s'.ctl == s.ctl)
      && Bound(s') <= Bound(s)
  {
    PreparesC(s);
    if step.WorkerStep? {
      hide Decide;
      DecideTakes(s.workers[step.i], Front(s), s.isDone);
    } else if step.CtlStep? {
      hide CtlNext;
    } else {
      PreparesX(s, step);
      hide Next, Enabled;
    }
  }

  function CtlSteps(steps: seq<Step>): (n: nat) {
    if steps == [] then 0 else One(steps[0].CtlStep?) + CtlSteps(steps[1..])
  }

  /** A run with that many steps of stop itself leads to the point where it notifies. */
  lemma {:induction false} StopGetsToNotify(s: State, steps: seq<Step>, s': State) returns (k: nat, m: State)
    requires Inv(s) && (Preparing(s.ctl) || StopWaits(s.ctl))
    requires Reaches(s, steps, s') && NoPush(steps) && CtlSteps(steps) >= Ahead(s)
    ensures k <= |steps| && Reaches(s, steps[..k], m) && Reaches(m, steps[k..], s')
    ensures Inv(m) && StopWaits(m.ctl) && Measure(m) <= Bound(s)
    decreases |steps|
  {
    hide Inv, Next, Enabled, Measure, Bound;
    if StopWaits(s.ctl) {
      k, m := 0, s;
      VectorsPart(s);
      MeasureBounded(s);
    } else {
      AheadPositive(s);
      PrepareProgress(s, steps[0]);
      InvKept(s, steps[0]);
      k, m := StopGetsToNotify(Next(s, steps[0]), steps[1..], s');
      assert steps[..k + 1][1..] == steps[1..][..k] && steps[k + 1..] == steps[1..][k..];
      k := k + 1;
    }
  }

  lemma {:induction false} AheadPositive(s: State)
    requires Inv(s) && Preparing(s.ctl)
    ensures Ahead(s) > 0
  {
    VectorsPart(s);
  }

  /** A stop is under way; nothing is pushed; the first part has the steps that stop has to make
      before it notifies, and the rest as many steps of anyone as the bound says. */
  ghost predicate LongEnough(s: State, first: seq<Step>, rest: seq<Step>) {
    && (Preparing(s.ctl) || StopWaits(s.ctl))
    && NoPush(first) && CtlSteps(first) >= Ahead(s)
    && NoPush(rest) && |rest| >= Bound(s)
  }

  /** A run without new pushes in which a stop makes its steps up to the notify, and which then goes on
      for long enough, contains its return. */
  lemma {:induction false} LongRunsReturn(s: State, first: seq<Step>, mid: State, rest: seq<Step>, s': State)
    returns (k: nat, m: State)
    requires Reachable(s) && Reaches(s, first, mid) && Reaches(mid, rest, s')
    ensures LongEnough(s, first, rest) ==>
      k <= |first + rest| && Reaches(s, (first + rest)[..k], m) && m.ctl.Idle?
  {
    hide Inv, Reaches, Reachable, Measure, Bound, Ahead;
    k, m := 0, s;
    if LongEnough(s, first, rest) {
      ReachableInv(s);
      var i, n := StopGetsToNotify(s, first, mid);
      RunAppend(n, first[i..], mid, rest, s');
      var later := first[i..] + rest;
      k, m := BoundedStop(n, later, s');
      RunAppend(s, first[..i], n, later[..k], m);
      assert first[..i] + later[..k] == (first + rest)[..i + k];
      k := i + k;
    }
  }

  // ---- from the call to the return ----

  /** The stop that was called before s has passed its preparations, or has not: task t is in the queue
      only while it still prepares. */
  ghost predicate Discards(s: State, t: Task) {
    s.isStop && t < s.h.pushed && (t in s.queue ==> Preparing(s.ctl))
  }

  lemma {:induction false} DiscardsC(s: State, t: Task)
    requires Discards(s, t) && CtlCanStep(s)
    ensures Discards(CtlNext(s), t)
  {
    CtlFrame(s);
    assert Preparing(s.ctl) && !Preparing(CtlNext(s).ctl) ==> s.queue == [];
  }

  lemma {:induction false} DiscardsX(s: State, step: Step, t: Task)
    requires Discards(s, t) && Enabled(s, step) && External(step)
    ensures Discards(Next(s, step), t)
  {
    ExternalQueue(s, step);
    StopKept(s, step);
    hide Next;
  }

  lemma {:induction false} StopKept(s: State, step: Step)
    requires Enabled(s, step) && External(step)
    ensures s.isStop ==> Next(s, step).isStop
    ensures s.isDone ==> Next(s, step).isDone
    ensures !s.ctl.Idle? ==> Next(s, step).ctl == s.ctl
  {
    hide CtlNext, WorkerNext, SomeAsleep;
  }

  lemma {:induction false} StaysDiscarding(s: State, steps: seq<Step>, s': State, t: Task)
    requires Discards(s, t) && Reaches(s, steps, s')
    ensures Discards(s', t)
    decreases |steps|
  {
    if steps == [] {
    } else {
      var step := steps[0];
      if step.WorkerStep? {
        hide Decide;
        DecideTakes(s.workers[step.i], Front(s), s.isDone);
      } else if step.CtlStep? {
        hide CtlNext;
        DiscardsC(s, t);
      } else {
        DiscardsX(s, step, t);
      }
      hide Next, Enabled, Discards;
      StaysDiscarding(Next(s, step), steps[1..], s', t);
    }
  }

  /** A thread of the pool is joined: it is in the vectors, or it has ended. */
  ghost predicate Joins(s: State, w: nat) {
    (s.isDone || s.isStop) && w < |s.workers| && (w in s.threads || s.workers[w].pc.Exited?)
  }

  lemma {:induction false} JoinsKept(s: State, step: Step, w: nat)
    requires Inv(s) && Joins(s, w) && Enabled(s, step)
    ensures Joins(Next(s, step), w)
  {
    assert StagesOk(s) && VectorsOk(s) && JoinOk(s);
    if step.WorkerStep? {
      hide Decide;
    } else if step.CtlStep? {
      JoinsKeptC(s, w);
    } else {
      ExternalFrame(s, step);
      StopKept(s, step);
      hide Next;
    }
  }

  lemma {:induction false} JoinsKeptC(s: State, w: nat)
    requires StagesOk(s) && VectorsOk(s) && JoinOk(s) && Joins(s, w) && CtlCanStep(s)
    ensures Joins(CtlNext(s), w)
  {
    LongerC(s);
    CtlFrame(s);
    WorkersFrameC(s, w);
    assert !Resizing(s.ctl);
    assert s.ctl.ClearVectors? ==> forall k :: 0 <= k < |s.threads| ==> s.workers[s.threads[k]].pc.Exited?;
    assert !s.ctl.ClearVectors? ==> CtlNext(s).threads == s.threads;
    hide CtlNext;
  }

  lemma {:induction false} StaysJoining(s: State, steps: seq<Step>, s': State, w: nat)
    requires Inv(s) && Joins(s, w) && Reaches(s, steps, s')
    ensures Joins(s', w)
    decreases |steps|
  {
    hide Inv, Next, Enabled, Joins;
    if steps == [] {
    } else {
      JoinsKept(s, steps[0], w);
      InvKept(s, steps[0]);
      StaysJoining(Next(s, steps[0]), steps[1..], s', w);
    }
  }

  /** stop(false): when it notifies, and when it has returned, isStop is set and every task pushed
      before the call has left the queue. */
  lemma {:induction false} AbortingStop(s: State, steps: seq<Step>, s': State, t: Task)
    requires Reachable(s) && s.ctl.Idle? && !s.isStop && t < s.h.pushed
    requires Reaches(Next(s, CallStop(false)), steps, s') && (s'.ctl.Notifying? || s'.ctl.Idle?)
    ensures s'.isStop && t !in s'.queue && t < |s'.h.dequeued|
  {
    assert Discards(Next(s, CallStop(false)), t);
    CallOfStop(s, false);
    hide Next, Reachable, Reaches;
    StaysDiscarding(Next(s, CallStop(false)), steps, s', t);
    ReachableFrom(Next(s, CallStop(false)), steps, s');
    QueuedOrOut(s', t);
  }

  lemma {:induction false} QueuedOrOut(s: State, t: Task)
    requires Reachable(s) && t < s.h.pushed
    ensures t in s.queue <==> t >= |s.h.dequeued|
  {
    FirstInFirstOut(s);
    if t >= |s.h.dequeued| {
      assert s.queue[t - |s.h.dequeued|] == t;
    }
  }

  lemma {:induction false} CallOfStop(s: State, isWait: bool)
    requires Reachable(s) && s.ctl.Idle?
    ensures var m := Next(s, CallStop(isWait)); Reachable(m) && Reaches(s, [CallStop(isWait)], m)
  {
    var m := Next(s, CallStop(isWait));
    hide Next;
    assert Reaches(m, [], m) && [CallStop(isWait)][1..] == [];
    ReachableFrom(s, [CallStop(isWait)], m);
  }

  /** The return of a stop of either kind, however long it took: its mark is set, the vectors are empty,
      every thread that was in them has ended, and every other worker has ended or has been told to. */
  lemma {:induction false} StopLeavesNoThreads(s: State, isWait: bool, steps: seq<Step>, s': State)
    requires Reachable(s) && s.ctl.Idle? && !s.isStop && (isWait ==> !s.isDone)
    requires Reaches(Next(s, CallStop(isWait)), steps, s') && s'.ctl.Idle?
    ensures if isWait then s'.isDone else s'.isStop
    ensures s'.threads == []
    ensures forall w :: w in s.threads ==> w < |s'.workers| && s'.workers[w].pc.Exited?
    ensures forall w :: 0 <= w < |s'.workers| ==> s'.workers[w].flag || s'.workers[w].pc.Exited?
  {
    var m := Next(s, CallStop(isWait));
    assert m.threads == s.threads && m.workers == s.workers && (if isWait then m.isDone else m.isStop);
    CallOfStop(s, isWait);
    hide Next, Reachable, Inv, Reaches;
    ReachableInv(m);
    VectorsPart(m);
    MarksStay(m, steps, s');
    RunKeepsInv(m, steps, s');
    forall w | w in s.threads ensures w < |s'.workers| && s'.workers[w].pc.Exited? {
      StaysJoining(m, steps, s', w);
      AllOut(s');
    }
    AllOut(s');
  }

  lemma {:induction false} MarksStay(s: State, steps: seq<Step>, s': State)
    requires Reaches(s, steps, s')
    ensures s.isStop ==> s'.isStop
    ensures s.isDone ==> s'.isDone
    decreases |steps|
  {
    if steps == [] {
    } else {
      if External(steps[0]) {
        StopKept(s, steps[0]);
      } else if steps[0].CtlStep? {
        CtlFrame(s);
      }
      hide Next, Enabled;
      MarksStay(Next(s, steps[0]), steps[1..], s');
    }
  }

  /** When stop has returned only detached threads can still be at work. */
  lemma {:induction false} AllOut(s: State)
    requires Inv(s) && (s.isDone || s.isStop) && s.ctl.Idle?
    ensures s.threads == []
    ensures forall i :: 0 <= i < |s.workers| ==> s.workers[i].pc.Exited? || s.workers[i].flag
  {
    assert StagesOk(s) && OutsideOk(s) && AbortOk(s);
    forall i | 0 <= i < |s.workers| ensures s.workers[i].pc.Exited? || s.workers[i].flag {
      assert WorkerAbortOk(s.workers[i]);
    }
  }

  lemma {:induction false} StopBegins(s: State, isWait: bool)
    requires s.ctl.Idle? && !s.isStop && (isWait ==> !s.isDone)
    ensures var n := Next(s, CallStop(isWait));
      && (if isWait then StopWaits(n.ctl) else Preparing(n.ctl))
      && Ahead(n) == (if isWait then 0 else |s.threads| + |s.queue| + 2) && Bound(n) == Bound(s)
  {
  }

  /** The whole of a stop of either kind from its call: a run without new pushes, in which stop makes so
      many steps of its own and which then goes on for so long, contains the return, with what it
      leaves. Both numbers are known at the call. */
  lemma {:induction false} StopReturnsFromCall(s: State, isWait: bool, first: seq<Step>, mid: State, rest: seq<Step>,
      s': State) returns (k: nat, m: State)
    requires Reachable(s) && s.ctl.Idle? && !s.isStop && (isWait ==> !s.isDone)
    requires Reaches(Next(s, CallStop(isWait)), first, mid) && Reaches(mid, rest, s')
    requires NoPush(first) && NoPush(rest)
    requires |rest| >= Bound(s) && CtlSteps(first) >= if isWait then 0 else |s.threads| + |s.queue| + 2
    ensures k <= |first + rest| && Reaches(Next(s, CallStop(isWait)), (first + rest)[..k], m) && m.ctl.Idle?
    ensures (if isWait then m.isDone else m.isStop) && m.threads == []
  {
    hide Next, Reachable, Reaches, Bound, Ahead;
    var n := Next(s, CallStop(isWait));
    StopBegins(s, isWait);
    CallOfStop(s, isWait);
    k, m := LongRunsReturn(n, first, mid, rest, s');
    StopLeavesNoThreads(s, isWait, (first + rest)[..k], m);
  }
}
