/** What the pool guarantees in every reachable state and over every run. */
module PoolTheorems {
  import opened Basics
  import opened Pool
  import opened PoolInvariant
  import opened PoolRuns

  // ---- wake-ups ----

  /** While a worker sleeps, every queued task is accounted for by a push that has yet to
      notify or by a woken worker that has yet to look at the queue. */
  lemma {:induction false} NoLostWakeup(s: State)
    requires Reachable(s) && SomeAsleep(s)
    ensures |s.queue| <= |s.inflight| + Count(s.workers, Rewoken)
  {
    ReachableInv(s);
  }

  /** When every live worker sleeps and no push is under way, there is nothing to do. */
  lemma {:induction false} AllAsleepMeansNothingQueued(s: State)
    requires Reachable(s) && SomeAsleep(s) && s.inflight == {}
    requires forall i :: 0 <= i < |s.workers| ==> s.workers[i].pc.Asleep? || s.workers[i].pc.Exited?
    ensures s.queue == []
  {
    NoLostWakeup(s);
    if Count(s.workers, Rewoken) >= 1 {
      var i := CountWitness(s.workers, Rewoken);
      assert false;
    }
  }

  /** n_idle() is the number of workers in the wait section, at every moment. */
  lemma {:induction false} IdleCountIsExact(s: State)
    requires Reachable(s)
    ensures s.nWaiting == Count(s.workers, InWait)
  {
    ReachableInv(s);
  }

  // ---- tasks ----

  lemma {:induction false} CountTwo(ws: seq<Worker>, i: nat, j: nat, k: Kind)
    requires i < |ws| && j < |ws| && i != j && Is(ws[i], k) && Is(ws[j], k)
    ensures Count(ws, k) >= 2
  {
    var ws' := ws[i := FreshWorker()];
    CountUpdate(ws, i, FreshWorker(), k);
    CountSome(ws', j, k);
  }

  /** Every task ever pushed is in exactly one place, once; no other task is anywhere. */
  lemma {:induction false} TaskConservation(s: State, t: Task)
    requires Reachable(s)
    ensures Copies(s, t) == if t < s.h.pushed then 1 else 0
    ensures s.h.completed[t] <= 1 && s.h.freed[t] <= 1
    ensures forall i, j | 0 <= i < |s.workers| && 0 <= j < |s.workers| ::
      Holds(s.workers[i].pc, t) && Holds(s.workers[j].pc, t) ==> i == j
    ensures forall i | 0 <= i < |s.workers| && Holds(s.workers[i].pc, t) ::
      t !in s.queue && s.h.completed[t] == 0 && s.h.freed[t] == 0
  {
    hide Inv;
    ReachableInv(s);
    assert Copies(s, t) == Pointers(s, t) == One(t < s.h.pushed) by { ConservedPart(s); }
    forall i | 0 <= i < |s.workers| && Holds(s.workers[i].pc, t)
      ensures t !in s.queue && s.h.completed[t] == 0 && s.h.freed[t] == 0
    {
      CountSome(s.workers, i, Holding(t));
      CountSome(s.workers, i, Owning(t));
      assert t in s.queue ==> multiset(s.queue)[t] >= 1;
    }
    forall i, j | 0 <= i < |s.workers| && 0 <= j < |s.workers|
        && Holds(s.workers[i].pc, t) && Holds(s.workers[j].pc, t)
      ensures i == j
    {
      if i != j { CountTwo(s.workers, i, j, Holding(t)); }
    }
  }

  lemma {:induction false} ConservedPart(s: State)
    requires Inv(s)
    ensures Conserved(s)
  {
  }

  /** Tasks leave the queue in the order in which they entered it, none is skipped. */
  lemma {:induction false} FirstInFirstOut(s: State)
    requires Reachable(s)
    ensures forall k :: 0 <= k < |s.h.dequeued| ==> s.h.dequeued[k] == k
    ensures forall k :: 0 <= k < |s.queue| ==> s.queue[k] == |s.h.dequeued| + k
    ensures |s.h.dequeued| + |s.queue| == s.h.pushed
  {
    ReachableInv(s);
    var all := s.h.dequeued + s.queue;
    assert |all| == |Range(s.h.pushed)|;
    forall k | 0 <= k < |all| ensures all[k] == k {
      assert Range(s.h.pushed)[k] == k;
    }
    forall k | 0 <= k < |s.queue| ensures s.queue[k] == |s.h.dequeued| + k {
      assert all[|s.h.dequeued| + k] == s.queue[k];
    }
    forall k | 0 <= k < |s.h.dequeued| ensures s.h.dequeued[k] == k {
      assert all[k] == s.h.dequeued[k];
    }
  }

  // ---- aborting ----

  /** How many tasks worker i takes in a run. */
  ghost function Takes(s: State, steps: seq<Step>, s': State, i: nat): (n: nat)
    requires Reaches(s, steps, s')
    decreases |steps|
  {
    if steps == [] then 0
    else One(steps[0] == WorkerStep(i) && Decide(s.workers[i], Front(s), s.isDone).takes)
         + Takes(Next(s, steps[0]), steps[1..], s', i)
  }

  lemma {:induction false} TakesKept(s: State, step: Step, i: nat)
    requires Enabled(s, step) && i < |s.workers| && s.workers[i].flag
    ensures i < |Next(s, step).workers| && Next(s, step).workers[i].flag
    ensures Next(s, step).workers[i].starts == s.workers[i].starts
      + One(step == WorkerStep(i) && Decide(s.workers[i], Front(s), s.isDone).takes)
  {
    if step.WorkerStep? {
      hide Decide;
    } else if step.CtlStep? {
      WorkersFrameC(s, i);
      LongerC(s);
      hide CtlNext;
    } else {
      ExternalFrame(s, step);
      hide Next, Enabled;
    }
  }

  lemma {:induction false} LongerC(s: State)
    requires CtlCanStep(s)
    ensures |CtlNext(s).workers| >= |s.workers|
  {
    hide NotifyAll;
  }

  lemma {:induction false} TakesAreStarts(s: State, steps: seq<Step>, s': State, i: nat)
    requires Reaches(s, steps, s') && i < |s.workers| && s.workers[i].flag
    ensures i < |s'.workers| && s'.workers[i].starts == s.workers[i].starts + Takes(s, steps, s', i)
    decreases |steps|
  {
    if steps == [] {
    } else {
      hide Next, Enabled, Decide;
      TakesKept(s, steps[0], i);
      TakesAreStarts(Next(s, steps[0]), steps[1..], s', i);
    }
  }

  /** Once its flag is set a worker takes at most one more task, over any run. */
  lemma {:induction false} AtMostOneMoreTask(s: State, steps: seq<Step>, s': State, i: nat)
    requires Reachable(s) && Reaches(s, steps, s') && i < |s.workers| && s.workers[i].flag
    ensures Takes(s, steps, s', i) <= 1
  {
    hide Inv, Takes, Reaches;
    ReachableInv(s);
    RunKeepsInv(s, steps, s');
    TakesAreStarts(s, steps, s', i);
    AbortPart(s');
  }

  lemma {:induction false} AbortPart(s: State)
    requires Inv(s)
    ensures AbortOk(s)
  {
  }

  /** A worker that was notified after its flag was set neither sleeps nor goes to sleep. */
  lemma {:induction false} NoSleepAfterSignal(s: State, i: nat)
    requires Reachable(s) && i < |s.workers| && s.workers[i].signalled
    ensures s.workers[i].flag && !s.workers[i].pc.Asleep? && !s.workers[i].pc.WillSleep?
  {
    ReachableInv(s);
    assert WorkerAbortOk(s.workers[i]);
  }

  /** How far a notified, flagged worker is from its end, in steps of its own. */
  function AbortRank(pc: Pc): (n: nat)
    ensures n <= 14 && (n == 0 ==> pc.Exited? || pc.Asleep? || pc.WillSleep?)
  {
    match pc
    case Popping => 14
    case Repop(_) => 14
    case WantLock => 13
    case Locked => 12
    case Woken => 12
    case Check(_) => 11
    case ReadDone => 10
    case ReadFlag => 9
    case Leaving(got) => if got.Some? then 6 else 2
    case Unlocking(got) => if got.Some? then 5 else 1
    case Running(_) => 4
    case Ran(_) => 3
    case WillSleep => 0
    case Asleep => 0
    case Exited => 0
  }

  lemma {:induction false} DecideAborts(w: Worker, front: Option<Task>, isDone: bool)
    requires Acting(w) && w.flag && !w.pc.WillSleep?
    ensures AbortRank(Decide(w, front, isDone).pc) < AbortRank(w.pc)
  {
  }

  /** ... and it ends after at most fourteen steps of its own, whatever the others do: each
      step it makes lowers its rank, no other step changes its place. */
  lemma {:induction false} AbortProgress(s: State, step: Step, i: nat)
    requires Reachable(s) && Enabled(s, step) && i < |s.workers| && s.workers[i].signalled
    ensures i < |Next(s, step).workers| && Next(s, step).workers[i].signalled
    ensures step == WorkerStep(i) ==> AbortRank(Next(s, step).workers[i].pc) < AbortRank(s.workers[i].pc)
    ensures step != WorkerStep(i) ==> Next(s, step).workers[i].pc == s.workers[i].pc
  {
    hide Inv, Reachable, AbortRank, Decide;
    NoSleepAfterSignal(s, i);
    if step.WorkerStep? {
      if step.i == i {
        DecideAborts(s.workers[i], Front(s), s.isDone);
      }
    } else if step.CtlStep? {
      SignalledFrame(s, i);
    } else {
      ExternalFrame(s, step);
      hide Next;
    }
  }

  lemma {:induction false} SignalledFrame(s: State, i: nat)
    requires CtlCanStep(s) && i < |s.workers| && s.workers[i].signalled && !s.workers[i].pc.Asleep?
    ensures i < |CtlNext(s).workers| && CtlNext(s).workers[i].signalled
    ensures CtlNext(s).workers[i].pc == s.workers[i].pc
  {
  }

  // ---- runs that follow a reachable state ----

  lemma {:induction false} RunAppend(s: State, steps: seq<Step>, m: State, more: seq<Step>, s': State)
    requires Reaches(s, steps, m) && Reaches(m, more, s')
    ensures Reaches(s, steps + more, s')
    decreases |steps|
  {
    hide Next, Enabled;
    if steps == [] {
      assert steps + more == more;
    } else {
      RunAppend(Next(s, steps[0]), steps[1..], m, more, s');
      assert (steps + more)[1..] == steps[1..] + more;
    }
  }

  lemma {:induction false} StartOfRun(s: State)
    ensures Reaches(s, [], s)
  {
  }

  /** One more step at the end of a run. */
  lemma {:induction false} Then(s: State, steps: seq<Step>, m: State, step: Step)
    returns (steps': seq<Step>, m': State)
    requires Reaches(s, steps, m) && Enabled(m, step)
    ensures m' == Next(m, step) && Reaches(s, steps', m')
  {
    m', steps' := Next(m, step), steps + [step];
    hide Next, Enabled;
    assert [step][1..] == [] && Reaches(m', [], m');
    RunAppend(s, steps, m, [step], m');
  }

  lemma {:induction false} ReachableFrom(s: State, steps: seq<Step>, s': State)
    requires Reachable(s) && Reaches(s, steps, s')
    ensures Reachable(s')
  {
    hide Reaches;
    var before :| Reaches(Init(), before, s);
    RunAppend(Init(), before, s, steps, s');
  }

  /** After the notify_all of stop(true) no worker sleeps or is about to. */
  lemma {:induction false} NobodySleepsAfterDrainNotify(s: State, i: nat)
    requires Reachable(s) && s.isDone && !BeforeNotify(s) && i < |s.workers|
    ensures !OnWayToSleep(s.workers[i].pc)
  {
    ReachableInv(s);
  }

  // ---- what callers take out ----

  /** pop hands out the task that was pushed first of those queued, and nothing else changes hands. */
  lemma {:induction false} PopHandsOutFirst(s: State)
    requires Reachable(s) && s.queue != []
    ensures var s', t := Next(s, UserPop), |s.h.dequeued|;
      && s'.h.handedOut == s.h.handedOut + multiset{t} && s'.h.cleared == s.h.cleared
      && s'.h.freed == s.h.freed + multiset{t} && s'.h.dropped == s.h.dropped && s'.h.completed == s.h.completed
      && s'.queue == s.queue[1..] && t !in s'.queue && s'.workers == s.workers
  {
    FirstInFirstOut(s);
    assert s.queue[0] == |s.h.dequeued|;
  }

  function Repeat(step: Step, n: nat): (steps: seq<Step>)
    ensures |steps| == n
  {
    if n == 0 then [] else [step] + Repeat(step, n - 1)
  }

  lemma {:induction false} ClearStep(s: State)
    requires s.queue != []
    ensures Enabled(s, UserClear)
    ensures var n := Next(s, UserClear);
      && n == s.(queue := s.queue[1..], h := n.h) && n.h.handedOut == s.h.handedOut
      && n.h.cleared + multiset(n.queue) == s.h.cleared + multiset(s.queue)
      && n.h.freed + multiset(n.queue) == s.h.freed + multiset(s.queue)
  {
    assert s.queue == [s.queue[0]] + s.queue[1..];
  }

  /** clear_queue, uninterrupted: every queued task is deleted and recorded as cleared. */
  lemma {:induction false} ClearEmptiesQueue(s: State) returns (s': State)
    ensures Reaches(s, Repeat(UserClear, |s.queue|), s')
    ensures s' == s.(queue := [], h := s'.h) && s'.h.handedOut == s.h.handedOut
    ensures s'.h.cleared == s.h.cleared + multiset(s.queue) && s'.h.freed == s.h.freed + multiset(s.queue)
    decreases |s.queue|
  {
    hide Reaches, Repeat, Next, Enabled;
    if s.queue == [] {
      s' := s;
      StartOfRun(s);
      assert Repeat(UserClear, 0) == [];
    } else {
      ClearStep(s);
      s' := ClearEmptiesQueue(Next(s, UserClear));
      Prepend(s, UserClear, |s.queue| - 1, s');
    }
  }

  // ---- running ----

  /** A worker between two tasks. */
  predicate Between(pc: Pc) { pc.Popping? || pc.Repop? }

  /** Queue, mutex and record, without what was freed. */
  predicate SameBut(s: State, s': State, queue: seq<Task>, dequeued: seq<Task>, completed: multiset<Task>) {
    && |s'.workers| == |s.workers| && s'.mutex == s.mutex && s'.queue == queue
    && s'.h.dequeued == dequeued && s'.h.completed == completed
  }

  lemma {:induction false} PopStep(s: State, i: nat)
    requires i < |s.workers| && Between(s.workers[i].pc) && !s.workers[i].flag && s.queue != []
    ensures WorkerCanStep(s, i)
    ensures var n, t := WorkerNext(s, i), s.queue[0];
      && SameBut(s, n, s.queue[1..], s.h.dequeued + [t], s.h.completed)
      && n.workers[i].pc == Running(t) && !n.workers[i].flag
  {
    assert s.h.completed + multiset{} == s.h.completed;
  }

  lemma {:induction false} RunStep(s: State, i: nat, t: Task)
    requires i < |s.workers| && s.workers[i].pc == Running(t) && !s.workers[i].flag
    ensures WorkerCanStep(s, i)
    ensures var n := WorkerNext(s, i);
      && SameBut(s, n, s.queue, s.h.dequeued, s.h.completed + multiset{t})
      && n.workers[i].pc == Ran(t) && !n.workers[i].flag
  {
  }

  lemma {:induction false} FlagStep(s: State, i: nat, t: Task)
    requires i < |s.workers| && s.workers[i].pc == Ran(t) && !s.workers[i].flag
    ensures WorkerCanStep(s, i)
    ensures var n := WorkerNext(s, i);
      && SameBut(s, n, s.queue, s.h.dequeued, s.h.completed)
      && n.workers[i].pc == Repop(t) && !n.workers[i].flag
  {
    assert s.h.completed + multiset{} == s.h.completed;
  }

  /** One task: popped, run to the end, the flag read. */
  lemma {:induction false} RunsFront(s: State, i: nat) returns (s': State)
    requires i < |s.workers| && Between(s.workers[i].pc) && !s.workers[i].flag && s.queue != []
    ensures Reaches(s, Repeat(WorkerStep(i), 3), s')
    ensures var t := s.queue[0];
      && SameBut(s, s', s.queue[1..], s.h.dequeued + [t], s.h.completed + multiset{t})
      && s'.workers[i].pc == Repop(t) && !s'.workers[i].flag
  {
    hide WorkerNext, WorkerCanStep;
    var t := s.queue[0];
    PopStep(s, i);
    var a := WorkerNext(s, i);
    RunStep(a, i, t);
    var b := WorkerNext(a, i);
    FlagStep(b, i, t);
    s' := WorkerNext(b, i);
    assert Reaches(s', Repeat(WorkerStep(i), 0), s');
    hide Reaches, SomeAsleep, CtlNext;
    Prepend(b, WorkerStep(i), 0, s');
    Prepend(a, WorkerStep(i), 1, s');
    Prepend(s, WorkerStep(i), 2, s');
  }

  lemma {:induction false} Prepend(s: State, step: Step, n: nat, s': State)
    requires Enabled(s, step) && Reaches(Next(s, step), Repeat(step, n), s')
    ensures Reaches(s, Repeat(step, n + 1), s')
  {
    hide Next, Enabled;
    assert Repeat(step, n + 1)[1..] == Repeat(step, n);
  }

  lemma {:induction false} RepeatAppend(step: Step, m: nat, n: nat)
    ensures Repeat(step, m) + Repeat(step, n) == Repeat(step, m + n)
  {
    if m == 0 {
    } else {
      RepeatAppend(step, m - 1, n);
    }
  }

  /** A worker that nobody disturbs runs everything that is queued, in order, and never needs the
      mutex for it. */
  lemma {:induction false} RunsWholeQueue(s: State, i: nat) returns (s': State)
    requires i < |s.workers| && Between(s.workers[i].pc) && !s.workers[i].flag
    ensures Reaches(s, Repeat(WorkerStep(i), 3 * |s.queue|), s')
    ensures SameBut(s, s', [], s.h.dequeued + s.queue, s.h.completed + multiset(s.queue))
    ensures Between(s'.workers[i].pc) && !s'.workers[i].flag
    decreases |s.queue|
  {
    hide Reaches, Repeat, Next, Enabled;
    if s.queue == [] {
      s' := s;
      StartOfRun(s);
      assert s.h.dequeued + [] == s.h.dequeued && s.h.completed + multiset{} == s.h.completed;
      assert Repeat(WorkerStep(i), 0) == [];
    } else {
      var m := RunsFront(s, i);
      s' := RunsWholeQueue(m, i);
      RunAppend(s, Repeat(WorkerStep(i), 3), m, Repeat(WorkerStep(i), 3 * |m.queue|), s');
      RepeatAppend(WorkerStep(i), 3, 3 * |m.queue|);
      FrontAndRest(s.queue, s.h.dequeued, s.h.completed);
    }
  }

  lemma {:induction false} FrontAndRest(queue: seq<Task>, dequeued: seq<Task>, completed: multiset<Task>)
    requires queue != []
    ensures dequeued + [queue[0]] + queue[1..] == dequeued + queue
    ensures completed + multiset{queue[0]} + multiset(queue[1..]) == completed + multiset(queue)
  {
    assert queue == [queue[0]] + queue[1..];
    assert multiset(queue) == multiset{queue[0]} + multiset(queue[1..]);
  }

  /** After a stop, a further stop of a kind that was called before, stop(true) after any stop, and resize
      return at once. */
  lemma {:induction false} CallsAfterStop(s: State, n: nat)
    requires s.ctl.Idle?
    ensures s.isStop ==> Next(s, CallStop(false)) == s
    ensures s.isDone || s.isStop ==> Next(s, CallStop(true)) == s && Next(s, CallResize(n)) == s
  {
  }
}
