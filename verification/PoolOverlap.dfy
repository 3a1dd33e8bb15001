/** Exactly which queued tasks stop(true) can lose: for every task that is not safe, a run in which
    it is deleted unrun. */
module PoolOverlap {
  import opened Basics
  import opened Pool
  import opened PoolInvariant
  import opened PoolRuns
  import opened PoolTheorems
  import opened PoolDraining
  import opened PoolShutdown

  // ---- the end of a stop ----

  /** One step before a run. */
  lemma {:induction false} First(s: State, step: Step, steps: seq<Step>, s': State) returns (all: seq<Step>)
    requires Enabled(s, step) && Reaches(Next(s, step), steps, s')
    ensures all == [step] + steps && Reaches(s, all, s')
    ensures NoneTakenOut(steps) && !TakesOut(step) ==> NoneTakenOut(all)
  {
    hide Next, Enabled;
    all := [step] + steps;
    assert all[1..] == steps;
  }

  ghost predicate AllExited(s: State) {
    forall k :: 0 <= k < |s.threads| ==> s.threads[k] < |s.workers| && s.workers[s.threads[k]].pc.Exited?
  }

  /** The last loop of stop deletes whatever is queued. */
  lemma {:induction false} QueueIsDropped(m: State) returns (steps: seq<Step>, s': State)
    requires m.ctl.FinalClear?
    ensures Reaches(m, steps, s') && NoneTakenOut(steps) && s'.ctl.Idle?
    ensures s'.h.dropped == m.h.dropped + multiset(m.queue)
    decreases |m.queue|
  {
    DropStep(m);
    hide CtlNext, CtlCanStep, Reaches, NoneTakenOut;
    var n := CtlNext(m);
    if m.queue == [] {
      steps, s' := VectorsAreCleared(n);
    } else {
      steps, s' := QueueIsDropped(n);
    }
    steps := First(m, CtlStep, steps, s');
  }

  lemma {:induction false} DropStep(m: State)
    requires m.ctl.FinalClear?
    ensures CtlCanStep(m)
    ensures m.queue == [] ==> CtlNext(m) == m.(ctl := ClearVectors) && m.h.dropped + multiset(m.queue) == m.h.dropped
    ensures m.queue != [] ==>
      var n := CtlNext(m);
      && n.ctl.FinalClear? && n.queue == m.queue[1..]
      && n.h.dropped + multiset(n.queue) == m.h.dropped + multiset(m.queue)
  {
    if m.queue != [] {
      assert m.queue == [m.queue[0]] + m.queue[1..];
    }
  }

  lemma {:induction false} VectorsAreCleared(m: State) returns (steps: seq<Step>, s': State)
    requires m.ctl.ClearVectors?
    ensures Reaches(m, steps, s') && NoneTakenOut(steps) && s'.ctl.Idle? && s'.h.dropped == m.h.dropped
  {
    s' := CtlNext(m);
    assert Reaches(s', [], s');
    hide CtlNext, Reaches;
    steps := First(m, CtlStep, [], s');
  }

  lemma {:induction false} AllAreJoined(m: State) returns (steps: seq<Step>, s': State)
    requires m.ctl.Joining? && m.ctl.next <= |m.threads| && AllExited(m)
    ensures Reaches(m, steps, s') && NoneTakenOut(steps) && s'.ctl.Idle?
    ensures s'.h.dropped == m.h.dropped + multiset(m.queue)
    decreases |m.threads| - m.ctl.next
  {
    JoinStep(m);
    hide CtlNext, CtlCanStep, Reaches, AllExited, NoneTakenOut;
    var n := CtlNext(m);
    if m.ctl.next < |m.threads| {
      steps, s' := AllAreJoined(n);
    } else {
      steps, s' := QueueIsDropped(n);
    }
    steps := First(m, CtlStep, steps, s');
  }

  lemma {:induction false} JoinStep(m: State)
    requires m.ctl.Joining? && m.ctl.next <= |m.threads| && AllExited(m)
    ensures CtlCanStep(m)
    ensures CtlNext(m) == m.(ctl := if m.ctl.next < |m.threads| then Joining(m.ctl.next + 1) else FinalClear)
    ensures AllExited(CtlNext(m))
  {
  }

  lemma {:induction false} StopDropsQueue(m: State) returns (steps: seq<Step>, s': State)
    requires m.ctl == WantNotify(ThenJoin) && m.mutex.None? && AllExited(m)
    ensures Reaches(m, steps, s') && NoneTakenOut(steps) && s'.ctl.Idle?
    ensures s'.h.dropped == m.h.dropped + multiset(m.queue)
  {
    hide CtlNext, CtlCanStep, Reaches, AllExited, NoneTakenOut;
    NotifySteps(m);
    var a := CtlNext(m);
    var b := CtlNext(a);
    var c := CtlNext(b);
    steps, s' := AllAreJoined(c);
    steps := First(b, CtlStep, steps, s');
    steps := First(a, CtlStep, steps, s');
    steps := First(m, CtlStep, steps, s');
  }

  lemma {:induction false} NotifySteps(m: State)
    requires m.ctl == WantNotify(ThenJoin) && m.mutex.None? && AllExited(m)
    ensures CtlCanStep(m) && CtlCanStep(CtlNext(m)) && CtlCanStep(CtlNext(CtlNext(m)))
    ensures var c := CtlNext(CtlNext(CtlNext(m)));
      c.ctl == Joining(0) && AllExited(c) && c.queue == m.queue && c.h.dropped == m.h.dropped
  {
    var b := CtlNext(CtlNext(m));
    assert forall i :: 0 <= i < |m.workers| && m.workers[i].pc.Exited? ==> b.workers[i].pc.Exited?;
  }

  // ---- until the mutex is free ----

  /** How far a worker that holds the mutex is from letting go of it. */
  function HolderRank(pc: Pc): (n: nat) {
    match pc
    case Locked => 6
    case Check(_) => 5
    case ReadDone => 4
    case ReadFlag => 3
    case Leaving(_) => 2
    case WillSleep => 1
    case Unlocking(_) => 1
    case _ => 0
  }

  predicate LeavesEmptyHanded(pc: Pc) { pc.ReadDone? || LeftEmptyHanded(pc) }

  lemma {:induction false} DecideReleases(w: Worker, front: Option<Task>)
    requires HoldsMutex(w.pc)
    ensures var a := Decide(w, front, true);
      && (a.use.Unlock? || (a.use.Keep? && HoldsMutex(a.pc) && HolderRank(a.pc) < HolderRank(w.pc)))
      && (a.takes ==> w.pc.Check?)
      && (LeavesEmptyHanded(w.pc) ==> LeavesEmptyHanded(a.pc))
      && (LeavesEmptyHanded(w.pc) && a.use.Unlock? ==> a.pc.Exited?)
      && (a.pc.Check? ==> w.pc.Locked?) && !a.pc.Locked?
  {
  }

  function MutexRank(s: State): (n: nat) {
    match s.mutex
    case None => 0
    case Some(W(i)) => if i < |s.workers| then 1 + HolderRank(s.workers[i].pc) else 0
    case Some(P(t)) => if t in s.inflight then 2 else 1
    case Some(C) => 0
  }

  /** t is queued, and not about to be taken; stop has to wait for the mutex. */
  ghost predicate InWay(m: State, t: Task) {
    m.isDone && m.ctl == WantNotify(ThenJoin) && t in m.queue && !FrontIsTaken(m, t)
  }

  /** One step of who holds the mutex. */
  lemma {:induction false} HolderSteps(m: State, t: Task) returns (step: Step)
    requires Inv(m) && InWay(m, t) && m.mutex.Some?
    ensures Enabled(m, step) && !TakesOut(step)
    ensures var n := Next(m, step);
      && InWay(n, t) && MutexRank(n) < MutexRank(m) && n.threads == m.threads && n.h.dropped == m.h.dropped
    ensures m.mutex.value.W? ==> step == WorkerStep(m.mutex.value.i)
  {
    assert MutexOk(m) && QueueOk(m);
    step := HolderCanStep(m);
    if m.mutex.value.W? {
      WorkerInWay(m, t, m.mutex.value.i);
    } else {
      PushInWay(m, t, step);
    }
  }

  lemma {:induction false} WorkerInWay(m: State, t: Task, i: nat)
    requires MutexOk(m) && InWay(m, t) && m.mutex == Some(W(i))
    ensures WorkerCanStep(m, i)
    ensures var n := WorkerNext(m, i);
      && InWay(n, t) && MutexRank(n) < MutexRank(m) && n.threads == m.threads && n.h.dropped == m.h.dropped
  {
    var w := m.workers[i];
    DecideReleases(w, Front(m));
    DecideTakes(w, Front(m), true);
    hide Decide;
    var n := WorkerNext(m, i);
    if w.pc.Check? {
      assert AboutToPop(m, i);
    }
    if j: nat :| AboutToPop(n, j) {
      assert HoldsMutex(n.workers[j].pc);
      assert j == i;
      assert AboutToPop(m, i);
    }
  }

  lemma {:induction false} PushInWay(m: State, t: Task, step: Step)
    requires MutexOk(m) && InWay(m, t) && Enabled(m, step) && (step.PushNotify? || step.PushUnlock?)
    ensures var n := Next(m, step);
      && InWay(n, t) && MutexRank(n) < MutexRank(m) && n.threads == m.threads && n.h.dropped == m.h.dropped
  {
    hide SomeAsleep;
    var n := Next(m, step);
    assert forall j: nat :: AboutToPop(n, j) ==> AboutToPop(m, j);
  }

  lemma {:induction false} LeaverSteps(m: State, i: nat)
    requires WorkerCanStep(m, i) && m.isDone && m.mutex == Some(W(i))
    requires HoldsMutex(m.workers[i].pc) && LeavesEmptyHanded(m.workers[i].pc)
    ensures var n := WorkerNext(m, i);
      && i < |n.workers|
      && if n.mutex.None? then n.workers[i].pc.Exited?
         else n.mutex == Some(W(i)) && LeavesEmptyHanded(n.workers[i].pc)
  {
    DecideReleases(m.workers[i], Front(m));
    DecideTakes(m.workers[i], Front(m), true);
    hide Decide;
  }

  /** Who holds the mutex lets go of it; a worker that is leaving empty-handed is gone then. */
  lemma {:induction false} MutexIsFreed(m: State, t: Task) returns (steps: seq<Step>, s': State)
    requires Inv(m) && InWay(m, t)
    ensures Reaches(m, steps, s') && NoneTakenOut(steps)
    ensures Inv(s') && InWay(s', t) && s'.mutex.None? && s'.threads == m.threads && s'.h.dropped == m.h.dropped
    ensures forall i :: 0 <= i < |m.workers| && m.mutex == Some(W(i)) && LeavesEmptyHanded(m.workers[i].pc) ==>
      i < |s'.workers| && s'.workers[i].pc.Exited?
    ensures m.mutex.None? ==> s' == m
    decreases MutexRank(m)
  {
    hide Inv, InWay, MutexRank, Enabled;
    if m.mutex.None? {
      steps, s' := [], m;
    } else {
      var step := HolderSteps(m, t);
      InvKept(m, step);
      var n := Next(m, step);
      steps, s' := MutexIsFreed(n, t);
      forall i | 0 <= i < |m.workers| && m.mutex == Some(W(i)) && LeavesEmptyHanded(m.workers[i].pc)
        ensures i < |s'.workers| && s'.workers[i].pc.Exited?
      {
        LeaverSteps(m, i);
      }
      hide Next, Reaches;
      steps := First(m, step, steps, s');
    }
  }

  // ---- the exact condition ----

  lemma {:induction false} UnsafeIsInWay(s: State, t: Task)
    requires s.ctl.Idle? && !s.isDone && !s.isStop && t in s.queue && !Safe(s, t)
    requires Inv(Next(s, CallStop(true)))
    ensures var m := Next(s, CallStop(true));
      && InWay(m, t) && m.threads == s.threads
      && forall k :: 0 <= k < |m.threads| ==>
           && m.threads[k] < |m.workers| && m.mutex == Some(W(m.threads[k]))
           && LeavesEmptyHanded(m.workers[m.threads[k]].pc)
  {
    var m := Next(s, CallStop(true));
    assert MutexOk(m);
    forall i: nat | AboutToPop(m, i) ensures AboutToPop(s, i) && s.threads == [] {
      assert HoldsMutex(m.workers[i].pc);
    }
  }

  /** A task that is not safe when stop(true) is called is dropped by some run that takes nothing out. */
  lemma {:induction false} UnsafeIsDropped(s: State, t: Task) returns (steps: seq<Step>, s': State)
    requires Reachable(s) && s.ctl.Idle? && !s.isDone && !s.isStop && t in s.queue && !Safe(s, t)
    ensures Reaches(Next(s, CallStop(true)), steps, s') && NoneTakenOut(steps) && s'.ctl.Idle?
    ensures s'.h.dropped[t] >= 1
  {
    hide Reachable, Reaches, Inv;
    var m := Next(s, CallStop(true));
    CallOfStop(s, true);
    ReachableInv(m);
    UnsafeIsInWay(s, t);
    var first, n := MutexIsFreed(m, t);
    assert AllExited(n);
    var rest;
    rest, s' := StopDropsQueue(n);
    hide Next, Enabled;
    RunAppend(m, first, n, rest, s');
    steps := first + rest;
  }

  ghost predicate NeverDropped(s: State, t: Task)
    requires s.ctl.Idle?
  {
    forall steps, s' :: Reaches(Next(s, CallStop(true)), steps, s') && s'.ctl.Idle? ==> s'.h.dropped[t] == 0
  }

  /** stop(true) runs what is in the queue: no run to its return drops a queued task if and only if
      some thread is there to be joined and is not a lone one that is leaving, or, without threads,
      a detached worker has its hand on the task. */
  lemma {:induction false} DroppedIffUnsafe(s: State, t: Task)
    requires Reachable(s) && s.ctl.Idle? && !s.isDone && !s.isStop && t in s.queue
    ensures NeverDropped(s, t) <==> Safe(s, t)
  {
    hide Reachable, Safe, Next;
    if Safe(s, t) {
      QueuedIsPushed(s, t);
      forall steps, s' | Reaches(Next(s, CallStop(true)), steps, s') && s'.ctl.Idle? ensures s'.h.dropped[t] == 0 {
        DrainingStop(s, steps, s', t);
      }
    } else {
      var steps, s' := UnsafeIsDropped(s, t);
    }
  }

  lemma {:induction false} QueuedIsPushed(s: State, t: Task)
    requires Reachable(s) && t in s.queue
    ensures t < s.h.pushed
  {
    FirstInFirstOut(s);
    var k :| 0 <= k < |s.queue| && s.queue[k] == t;
  }

  ghost predicate AlwaysCompleted(s: State, t: Task)
    requires s.ctl.Idle?
  {
    forall steps, s' :: Reaches(Next(s, CallStop(true)), steps, s') && NoneTakenOut(steps) && s'.ctl.Idle? ==>
      s'.h.completed[t] == 1
  }

  /** On a pool that was never shrunk, without callers that take tasks out: a queued task is completed
      in every run to the return of stop(true) if and only if the pool has threads and not just a
      lone one that is leaving. */
  lemma {:induction false} CompletedIff(s: State, t: Task)
    requires Reachable(s) && s.ctl.Idle? && !s.isDone && !s.isStop && t in s.queue
    requires NoFlags(s.workers) && s.h.handedOut == multiset{} && s.h.cleared == multiset{}
    ensures AlwaysCompleted(s, t) <==> s.threads != [] && !LoneLeaver(s)
  {
    QueuedIsPushed(s, t);
    if s.threads == [] {
      NobodyElse(s, t);
    }
    hide Reachable, Next, LoneLeaver, FrontIsTaken;
    if s.threads != [] && !LoneLeaver(s) {
      forall steps, s' | Reaches(Next(s, CallStop(true)), steps, s') && NoneTakenOut(steps) && s'.ctl.Idle?
        ensures s'.h.completed[t] == 1
      {
        DrainingStopCompletes(s, steps, s', t);
      }
    } else {
      var steps, s' := UnsafeIsDropped(s, t);
      CallOfStop(s, true);
      ReachableFrom(Next(s, CallStop(true)), steps, s');
      TaskConservation(s', t);
      assert s'.h.completed[t] == 0;
    }
  }

  /** Without threads nobody is left in a pool that was never shrunk. */
  lemma {:induction false} NobodyElse(s: State, t: Task)
    requires Reachable(s) && NoFlags(s.workers) && s.threads == []
    ensures !FrontIsTaken(s, t)
  {
    ReachableInv(s);
    assert OutsideOk(s) && AbortOk(s);
    forall i: nat ensures !AboutToPop(s, i) {
      assert i < |s.workers| ==> WorkerAbortOk(s.workers[i]);
    }
  }

  // ---- both cases occur ----

  /** One worker that has just found the queue empty, with the mutex held, and one task that
      entered the queue since, its push not yet at the mutex. */
  lemma {:induction false} PushBehindTheWorker() returns (s: State)
    ensures Reachable(s) && s.ctl.Idle? && !s.isDone && !s.isStop
    ensures s.workers == [Worker(ReadDone, false, false, 0)] && s.threads == [0]
    ensures s.queue == [0] && s.h.pushed == 1 && s.inflight == {0} && s.mutex == Some(W(0))
    ensures s.h.completed == s.h.dropped == multiset{}
  {
    var i, steps := Init(), [];
    s := i;
    hide Reaches;
    assert Reaches(i, steps, s) by { StartOfRun(i); }
    steps, s := Then(i, steps, s, CallResize(1));
    steps, s := Then(i, steps, s, CtlStep);
    steps, s := Then(i, steps, s, CtlStep);
    steps, s := Then(i, steps, s, WorkerStep(0));
    steps, s := Then(i, steps, s, WorkerStep(0));
    steps, s := Then(i, steps, s, WorkerStep(0));
    steps, s := Then(i, steps, s, WorkerStep(0));
    steps, s := Then(i, steps, s, Push);
  }

  /** stop(true), called when task 0 is in the queue and a worker is alive, can return with task 0
      deleted and never run: the worker found the queue empty just before. */
  lemma {:induction false} OverlappingPushIsDropped() returns (s: State, s': State, steps: seq<Step>)
    ensures Reachable(s) && s.ctl.Idle? && !s.isDone && !s.isStop && |s.threads| == 1 && 0 in s.queue
    ensures Reaches(Next(s, CallStop(true)), steps, s') && s'.ctl.Idle?
    ensures s'.h.dropped[0] == 1 && s'.h.completed[0] == 0
  {
    s := PushBehindTheWorker();
    hide Next, Reaches;
    steps, s' := UnsafeIsDropped(s, 0);
    CallOfStop(s, true);
    ReachableFrom(Next(s, CallStop(true)), steps, s');
    TaskConservation(s', 0);
  }

  /** A pool resized to nothing while its worker was on the way to look at the queue once more. */
  lemma {:induction false} DetachedWorker() returns (steps: seq<Step>, s: State)
    ensures Reaches(Init(), steps, s) && s.ctl.Idle? && !s.isDone && !s.isStop && s.threads == []
    ensures s.workers == [Worker(WantLock, true, true, 0)] && s.queue == [] && s.mutex.None? && s.h.pushed == 0
  {
    var i := Init();
    steps, s := [], i;
    hide Reaches;
    assert Reaches(i, steps, s) by { StartOfRun(i); }
    steps, s := Then(i, steps, s, CallResize(1));
    steps, s := Then(i, steps, s, CtlStep);
    steps, s := Then(i, steps, s, CtlStep);
    steps, s := Then(i, steps, s, WorkerStep(0));
    steps, s := Then(i, steps, s, CallResize(0));
    steps, s := Then(i, steps, s, CtlStep);
    steps, s := Then(i, steps, s, CtlStep);
    steps, s := Then(i, steps, s, CtlStep);
    steps, s := Then(i, steps, s, CtlStep);
    steps, s := Then(i, steps, s, CtlStep);
    steps, s := Then(i, steps, s, CtlStep);
  }

  /** A pool without threads can still be bound to run a task: a detached worker is about to pop it. */
  lemma {:induction false} DetachedWorkerSavesTask() returns (s: State)
    ensures Reachable(s) && s.ctl.Idle? && !s.isDone && !s.isStop && s.threads == [] && s.queue == [0]
    ensures NeverDropped(s, 0)
  {
    var i, steps := Init(), [];
    steps, s := DetachedWorker();
    hide Reaches;
    steps, s := Then(i, steps, s, WorkerStep(0));
    steps, s := Then(i, steps, s, Push);
    assert AboutToPop(s, 0);
    assert Reachable(s);
    DroppedIffUnsafe(s, 0);
  }
}
