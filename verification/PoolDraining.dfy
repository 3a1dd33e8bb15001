/** What stop(true) promises: it has the workers run what is in the queue. */
module PoolDraining {
  import opened Basics
  import opened Pool
  import opened PoolInvariant
  import opened PoolRuns
  import opened PoolTheorems
  import opened PoolShutdown

  // ---- which tasks are safe ----

  /** The only thread of the pool has found the queue empty and is about to read isDone. */
  predicate LoneLeaver(s: State) {
    |s.threads| == 1 && s.threads[0] < |s.workers| && s.workers[s.threads[0]].pc.ReadDone?
  }

  /** A worker that holds the mutex and pops before it lets go of it. */
  predicate AboutToPop(s: State, i: nat) {
    i < |s.workers| && (s.workers[i].pc.Locked? || s.workers[i].pc.Check?)
  }

  /** The task is next, and some worker is about to pop. */
  ghost predicate FrontIsTaken(s: State, t: Task) {
    s.queue != [] && s.queue[0] == t && exists i: nat :: AboutToPop(s, i)
  }

  /** A queued task that stop(true) leaves to the workers: some thread that is joined still has to
      look at the queue; or there is no thread to join, but a detached one has its hand on the task. */
  ghost predicate Safe(s: State, t: Task) {
    if s.threads == [] then FrontIsTaken(s, t) else !LoneLeaver(s)
  }

  // ---- the task is watched until it is taken ----

  /** Every worker but e that nobody told to stop looks at the queue before it leaves. */
  ghost predicate Working(s: State, e: int) {
    forall i :: 0 <= i < |s.workers| && i != e && !s.workers[i].flag ==>
      !LeftEmptyHanded(s.workers[i].pc) && !s.workers[i].pc.ReadDone?
  }

  ghost predicate JoinsAnother(s: State, e: int) {
    exists k :: 0 <= k < |s.threads| && s.threads[k] != e
  }

  predicate BeforeLastJoin(ctl: Ctl) { StopWaits(ctl) && !ctl.FinalClear? && !ctl.ClearVectors? }

  ghost predicate Drains(s: State, e: int) {
    !s.isStop && BeforeLastJoin(s.ctl) && JoinsAnother(s, e) && Working(s, e)
  }

  ghost predicate HeldUp(s: State, t: Task, e: int) {
    && s.queue != [] && s.queue[0] == t && s.ctl == WantNotify(ThenJoin)
    && e >= 0 && s.mutex == Some(W(e)) && AboutToPop(s, e)
  }

  /** Task t was not dropped, and while it is queued the stop waits for someone to take it. */
  ghost predicate Watched(s: State, t: Task, e: int) {
    && s.isDone && t < s.h.pushed && s.h.dropped[t] == 0
    && (t in s.queue ==> Drains(s, e) || HeldUp(s, t, e))
  }

  lemma {:induction false} QueuedOnce(s: State)
    requires QueueOk(s) && s.queue != []
    ensures s.queue[0] !in s.queue[1..]
  {
    var all := s.h.dequeued + s.queue;
    forall k | 0 <= k < |s.queue| ensures s.queue[k] == |s.h.dequeued| + k {
      assert all[|s.h.dequeued| + k] == s.queue[k] == Range(s.h.pushed)[|s.h.dequeued| + k];
    }
  }

  lemma {:induction false} DecideStaysWorking(w: Worker, front: Option<Task>, isDone: bool)
    requires Acting(w) && !w.flag && !LeftEmptyHanded(w.pc) && !w.pc.ReadDone? && front.Some?
    ensures var pc := Decide(w, front, isDone).pc; !LeftEmptyHanded(pc) && !pc.ReadDone?
  {
  }

  lemma {:induction false} DecidePops(w: Worker, front: Option<Task>, isDone: bool)
    requires front.Some? && (w.pc.Locked? || w.pc.Check?)
    ensures var a := Decide(w, front, isDone); a.takes || (a.pc.Check? && a.use.Keep?)
  {
  }

  lemma {:induction false} WatchedKeptW(s: State, i: nat, t: Task, e: int)
    requires MutexOk(s) && QueueOk(s) && Watched(s, t, e) && WorkerCanStep(s, i)
    ensures Watched(WorkerNext(s, i), t, e)
  {
    hide Decide, QueueOk;
    var s', w, front := WorkerNext(s, i), s.workers[i], Front(s);
    DecideTakes(w, front, s.isDone);
    if t in s'.queue {
      if Drains(s, e) {
        if i != e && !w.flag {
          DecideStaysWorking(w, front, s.isDone);
        }
        assert s'.threads == s.threads;
        assert JoinsAnother(s', e);
      } else {
        QueuedOnce(s);
        DecideMutex(w, front, s.isDone);
        if i == e {
          DecidePops(w, front, s.isDone);
        }
      }
    }
  }

  /** When every thread is joined the task has been taken. */
  lemma {:induction false} JoinedMeansTaken(s: State, t: Task, e: int)
    requires VectorsOk(s) && FlagsWhy(s) && JoinOk(s) && Watched(s, t, e)
    requires s.ctl.Joining? && s.ctl.next >= |s.threads|
    ensures t !in s.queue
  {
    assert CutAt(s) == |s.threads|;
    assert forall k :: 0 <= k < |s.threads| ==> s.workers[s.threads[k]].pc.Exited?;
    assert !s.isStop && JoinsAnother(s, e) ==> !Working(s, e);
  }

  lemma {:induction false} CtlStaysBeforeJoin(s: State)
    requires CtlCanStep(s) && BeforeLastJoin(s.ctl) && (s.ctl.Joining? ==> s.ctl.next < |s.threads|)
    ensures BeforeLastJoin(CtlNext(s).ctl) && CtlNext(s).threads == s.threads
    ensures |CtlNext(s).workers| == |s.workers|
  {
    hide NotifyAll;
  }

  lemma {:induction false} WatchedKeptC(s: State, t: Task, e: int)
    requires VectorsOk(s) && FlagsWhy(s) && JoinOk(s) && Watched(s, t, e) && CtlCanStep(s)
    ensures Watched(CtlNext(s), t, e)
  {
    var s' := CtlNext(s);
    CtlFrame(s);
    if s.ctl.Joining? && s.ctl.next >= |s.threads| {
      JoinedMeansTaken(s, t, e);
    } else if t in s.queue {
      CtlStaysBeforeJoin(s);
      hide CtlNext;
      forall i | 0 <= i < |s'.workers| && i != e && !s'.workers[i].flag
        ensures !LeftEmptyHanded(s'.workers[i].pc) && !s'.workers[i].pc.ReadDone?
      {
        WorkersFrameC(s, i);
      }
    }
  }

  lemma {:induction false} WatchedKeptX(s: State, step: Step, t: Task, e: int)
    requires MutexOk(s) && QueueOk(s) && Watched(s, t, e) && Enabled(s, step) && External(step)
    ensures Watched(Next(s, step), t, e)
  {
    ExternalFrame(s, step);
    ExternalQueue(s, step);
    DoneStays(s, step);
    if s.queue != [] {
      QueuedOnce(s);
    }
    if t in s.queue {
      assert !s.ctl.Idle?;
      MutexStaysHeld(s, step);
    }
    hide Next, Enabled, QueueOk;
    assert Drains(s, e) && t in s.queue ==> JoinsAnother(Next(s, step), e);
  }

  lemma {:induction false} DoneStays(s: State, step: Step)
    requires Enabled(s, step) && s.isDone && External(step)
    ensures Next(s, step).isDone
  {
    hide WorkerNext, CtlNext, SomeAsleep;
  }

  /** Nobody but the worker itself takes the mutex from it. */
  lemma {:induction false} MutexStaysHeld(s: State, step: Step)
    requires Enabled(s, step) && External(step) && !s.ctl.Idle?
    ensures s.mutex.Some? && s.mutex.value.W? ==> Next(s, step).mutex == s.mutex
    ensures !step.CallResize? && !step.CallStop?
  {
    hide WorkerNext, CtlNext, SomeAsleep;
  }

  lemma {:induction false} WatchedKept(s: State, step: Step, t: Task, e: int)
    requires Inv(s) && Watched(s, t, e) && Enabled(s, step)
    ensures Watched(Next(s, step), t, e)
  {
    hide WorkerNext, CtlNext, Watched, MutexOk, QueueOk, FlagsWhy, JoinOk, VectorsOk;
    if step.WorkerStep? {
      WatchedKeptW(s, step.i, t, e);
    } else if step.CtlStep? {
      WatchedKeptC(s, t, e);
    } else {
      WatchedKeptX(s, step, t, e);
    }
  }

  lemma {:induction false} RunStaysWatched(s: State, steps: seq<Step>, s': State, t: Task, e: int)
    requires Inv(s) && Reaches(s, steps, s')
    ensures Watched(s, t, e) ==> Watched(s', t, e)
    decreases |steps|
  {
    hide Inv, Next, Enabled, Watched;
    if steps != [] && Watched(s, t, e) {
      WatchedKept(s, steps[0], t, e);
      InvKept(s, steps[0]);
      RunStaysWatched(Next(s, steps[0]), steps[1..], s', t, e);
    }
  }

  /** With the call of stop(true) the watch begins; e is the worker that may leave, or has its hand
      on the task. */
  lemma {:induction false} WatchBegins(s: State, t: Task) returns (e: int)
    requires Inv(s) && s.ctl.Idle? && !s.isDone && !s.isStop && t < s.h.pushed
    requires t in s.queue ==> Safe(s, t)
    ensures Watched(Next(s, CallStop(true)), t, e)
  {
    assert MutexOk(s) && DrainOk(s) && VectorsOk(s);
    var m := Next(s, CallStop(true));
    e := if s.mutex.Some? && s.mutex.value.W? then s.mutex.value.i else -1;
    if t in s.queue {
      if s.threads == [] {
        var i: nat :| AboutToPop(s, i);
        assert s.mutex == Some(W(i));
      } else {
        SomeoneElse(s);
        forall i | 0 <= i < |s.workers| && !s.workers[i].flag ensures !LeftEmptyHanded(s.workers[i].pc) {
        }
        if 0 <= e && s.workers[e].pc.ReadDone? {
          assert Working(m, e) && JoinsAnother(m, e);
        } else {
          e := -1;
          assert Working(m, e);
          assert m.threads[0] != e;
        }
      }
    }
  }

  lemma {:induction false} SomeoneElse(s: State)
    requires DistinctThreads(s) && s.threads != [] && !LoneLeaver(s)
    ensures forall e :: 0 <= e < |s.workers| && s.workers[e].pc.ReadDone? ==> JoinsAnother(s, e)
  {
    forall e | 0 <= e < |s.workers| && s.workers[e].pc.ReadDone? ensures JoinsAnother(s, e) {
      if s.threads[0] == e {
        assert s.threads[1] != e;
      }
    }
  }

  // ---- the promise ----

  /** When stop(true) has returned, every task pushed before that was not in the queue any more, or
      was safe there, is not dropped: it is completed, unless a caller took it out or a thread
      that an earlier resize detached has it in hand. */
  lemma {:induction false} DrainingStop(s: State, steps: seq<Step>, s': State, t: Task)
    requires Reachable(s) && s.ctl.Idle? && !s.isDone && !s.isStop
    requires t < s.h.pushed && (t in s.queue ==> Safe(s, t))
    requires Reaches(Next(s, CallStop(true)), steps, s') && s'.ctl.Idle?
    ensures t !in s'.queue && s'.h.dropped[t] == 0
    ensures s'.h.completed[t] == 1 || s'.h.handedOut[t] == 1 || s'.h.cleared[t] == 1
      || exists i :: 0 <= i < |s'.workers| && s'.workers[i].flag && Holds(s'.workers[i].pc, t)
  {
    hide Inv, Reachable, Next, Reaches, Safe;
    var m := Next(s, CallStop(true));
    CallOfStop(s, true);
    ReachableInv(s);
    ReachableInv(m);
    ReachableFrom(m, steps, s');
    ReachableInv(s');
    var e := WatchBegins(s, t);
    RunStaysWatched(m, steps, s', t, e);
    TaskConservation(s', t);
    assert multiset(s'.queue)[t] == 0;
    if Count(s'.workers, Holding(t)) >= 1 {
      var i := CountWitness(s'.workers, Holding(t));
      assert Holds(s'.workers[i].pc, t);
      AllOut(s');
    }
  }

  /** What a caller can see of it: with two threads or more every queued task is safe, with one
      every task whose push has returned, or has notified at least. */
  lemma {:induction false} SafeForCallers(s: State, t: Task)
    requires Reachable(s) && t in s.queue
    requires |s.threads| >= 2 || (s.threads != [] && t !in s.inflight)
    ensures Safe(s, t)
  {
    if LoneLeaver(s) {
      LeaverFoundNothing(s, t);
    }
  }

  lemma {:induction false} LeaverFoundNothing(s: State, t: Task)
    requires Reachable(s) && LoneLeaver(s) && t in s.queue
    ensures t in s.inflight
  {
    ReachableInv(s);
    assert WakeOk(s) && FoundEmpty(s.workers[s.threads[0]].pc);
  }

  // ---- pools that were never shrunk ----

  ghost predicate NoFlags(ws: seq<Worker>) {
    forall i :: 0 <= i < |ws| ==> !ws[i].flag
  }

  /** Only stop(true), or calls on the emptied pool it leaves, can be under way. */
  predicate WindsDown(ctl: Ctl, threads: seq<nat>) {
    match ctl
    case Idle => threads == []
    case StopFlagging(_) => threads == []
    case StopClearing => true
    case WantNotify(after) => after.ThenJoin?
    case Notifying(after) => after.ThenJoin?
    case Notified(after) => after.ThenJoin?
    case Joining(_) => true
    case FinalClear => true
    case ClearVectors => true
    case _ => false
  }

  /** Nobody has flags set, and nobody has taken tasks out but the workers. */
  ghost predicate Undisturbed(s: State) {
    && s.isDone && WindsDown(s.ctl, s.threads) && NoFlags(s.workers)
    && s.h.handedOut == multiset{} && s.h.cleared == multiset{}
  }

  predicate TakesOut(step: Step) { step.UserPop? || step.UserClear? }

  ghost predicate NoneTakenOut(steps: seq<Step>) {
    forall k :: 0 <= k < |steps| ==> !TakesOut(steps[k])
  }

  lemma {:induction false} CtlStaysUndisturbed(s: State)
    requires Undisturbed(s) && CtlCanStep(s)
    ensures Undisturbed(CtlNext(s))
  {
  }

  lemma {:induction false} StaysUndisturbed(s: State, step: Step)
    requires Undisturbed(s) && Enabled(s, step) && !TakesOut(step)
    ensures Undisturbed(Next(s, step))
  {
    if step.CtlStep? {
      hide CtlNext, CtlCanStep;
      CtlStaysUndisturbed(s);
    } else {
      hide Decide, SomeAsleep, CtlNext;
    }
  }

  lemma {:induction false} RunStaysUndisturbed(s: State, steps: seq<Step>, s': State)
    requires Undisturbed(s) && Reaches(s, steps, s') && NoneTakenOut(steps)
    ensures Undisturbed(s')
    decreases |steps|
  {
    if steps == [] {
    } else {
      hide Next, Enabled, Undisturbed;
      StaysUndisturbed(s, steps[0]);
      RunStaysUndisturbed(Next(s, steps[0]), steps[1..], s');
    }
  }

  /** On a pool that was never shrunk and whose callers take nothing out of the queue every such task
      is completed when stop(true) has returned. */
  lemma {:induction false} DrainingStopCompletes(s: State, steps: seq<Step>, s': State, t: Task)
    requires Reachable(s) && s.ctl.Idle? && !s.isDone && !s.isStop && s.threads != []
    requires NoFlags(s.workers) && s.h.handedOut == multiset{} && s.h.cleared == multiset{}
    requires t < s.h.pushed && (t in s.queue ==> !LoneLeaver(s))
    requires Reaches(Next(s, CallStop(true)), steps, s') && s'.ctl.Idle? && NoneTakenOut(steps)
    ensures s'.h.completed[t] == 1
  {
    hide Reachable, Reaches;
    assert Undisturbed(Next(s, CallStop(true)));
    RunStaysUndisturbed(Next(s, CallStop(true)), steps, s');
    DrainingStop(s, steps, s', t);
  }
}
