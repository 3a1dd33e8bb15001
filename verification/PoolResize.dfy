/** What resize promises: when it has returned the pool has as many working threads as asked for. */
module PoolResize {
  import opened Pool
  import opened PoolInvariant
  import opened PoolRuns
  import opened PoolShutdown
  import opened PoolTheorems

  predicate IsCall(step: Step) { step.CallResize? || step.CallStop? }

  /** A resize to n is under way or has returned. */
  predicate Aims(ctl: Ctl, size: nat, n: nat) {
    match ctl
    case Idle => size == n
    case Spawning(target) => target == n && size <= n
    case Flagging(next, target) => target == n && n <= next <= size
    case WantNotify(after) => after == ThenTruncate(n) && n <= size
    case Notifying(after) => after == ThenTruncate(n) && n <= size
    case Notified(after) => after == ThenTruncate(n) && n <= size
    case Truncating(target) => target == n && n <= size
    case _ => false
  }

  ghost predicate Resizes(s: State, n: nat) {
    !s.isDone && !s.isStop && Aims(s.ctl, |s.threads|, n)
  }

  lemma {:induction false} CtlStaysAiming(s: State, n: nat)
    requires Resizes(s, n) && CtlCanStep(s)
    ensures Resizes(CtlNext(s), n)
  {
  }

  lemma {:induction false} StaysAiming(s: State, step: Step, n: nat)
    requires Resizes(s, n) && Enabled(s, step) && !IsCall(step)
    ensures Resizes(Next(s, step), n)
  {
    if step.CtlStep? {
      hide CtlNext, CtlCanStep;
      CtlStaysAiming(s, n);
    } else {
      hide Decide, SomeAsleep, CtlNext;
    }
  }

  lemma {:induction false} RunStaysAiming(s: State, steps: seq<Step>, s': State, n: nat)
    requires Resizes(s, n) && Reaches(s, steps, s') && forall k :: 0 <= k < |steps| ==> !IsCall(steps[k])
    ensures Resizes(s', n)
    decreases |steps|
  {
    if steps == [] {
    } else {
      hide Next, Enabled, Resizes;
      StaysAiming(s, steps[0], n);
      RunStaysAiming(Next(s, steps[0]), steps[1..], s', n);
    }
  }

  /** In a pool at rest that was not stopped no thread is flagged or has ended. */
  lemma {:induction false} ThreadsWork(s: State, k: nat)
    requires Inv(s) && s.ctl.Idle? && !s.isDone && !s.isStop && k < |s.threads|
    ensures s.threads[k] < |s.workers|
    ensures !s.workers[s.threads[k]].flag && !s.workers[s.threads[k]].pc.Exited?
  {
    assert VectorsOk(s) && FlagsWhy(s) && DrainOk(s);
  }

  /** When resize(n) has returned on a pool that was not stopped, there are n different threads, and
      none of them has ended or been told to: whatever the workers and callers do meanwhile. */
  lemma {:induction false} ResizeReturns(s: State, n: nat, steps: seq<Step>, s': State)
    requires Reachable(s) && s.ctl.Idle? && !s.isDone && !s.isStop
    requires Reaches(Next(s, CallResize(n)), steps, s') && s'.ctl.Idle?
    requires forall k :: 0 <= k < |steps| ==> !IsCall(steps[k])
    ensures |s'.threads| == n && DistinctThreads(s')
    ensures forall k :: 0 <= k < n ==>
      !s'.workers[s'.threads[k]].flag && !s'.workers[s'.threads[k]].pc.Exited?
  {
    var m := Next(s, CallResize(n));
    assert Reaches(m, [], m) && [CallResize(n)][1..] == [];
    assert Reaches(s, [CallResize(n)], m);
    assert Resizes(m, n);
    hide Reachable, Next, Reaches, Inv;
    ReachableFrom(s, [CallResize(n)], m);
    ReachableFrom(m, steps, s');
    ReachableInv(s');
    RunStaysAiming(m, steps, s', n);
    VectorsPart(s');
    forall k | 0 <= k < n ensures !s'.workers[s'.threads[k]].flag && !s'.workers[s'.threads[k]].pc.Exited? {
      ThreadsWork(s', k);
    }
  }

  // ---- resize returns ----

  /** The steps that resize still has to make. */
  function ResizeRank(s: State): (n: int) {
    match s.ctl
    case Spawning(target) => target - |s.threads| + 1
    case Flagging(next, target) => next - target + 5
    case WantNotify(_) => 4
    case Notifying(_) => 3
    case Notified(_) => 2
    case Truncating(_) => 1
    case _ => 0
  }

  /** Every step of resize itself brings it closer to its return, no other step takes it further away. */
  lemma {:induction false} ResizeProgress(s: State, n: nat, step: Step)
    requires Resizes(s, n) && Resizing(s.ctl) && Enabled(s, step)
    ensures Resizes(Next(s, step), n)
    ensures var s' := Next(s, step);
      if step.CtlStep? then ResizeRank(s') < ResizeRank(s) && (Resizing(s'.ctl) || s'.ctl.Idle?)
      else s'.ctl == s.ctl && ResizeRank(s') == ResizeRank(s)
  {
    StaysAiming(s, step, n);
    if step.WorkerStep? {
      hide Decide;
    } else if step.CtlStep? {
    } else {
      ExternalFrame(s, step);
      hide Next;
    }
  }

  /** Until resize has returned it can make its next step, or who holds the mutex can. */
  lemma {:induction false} ResizeNeverStuck(s: State) returns (step: Step)
    requires Reachable(s) && Resizing(s.ctl)
    ensures Enabled(s, step)
    ensures if s.ctl.WantNotify? && s.mutex.Some? then step.WorkerStep? || step.PushNotify? || step.PushUnlock?
            else step == CtlStep
  {
    ReachableInv(s);
    assert MutexOk(s) && VectorsOk(s);
    if s.ctl.WantNotify? && s.mutex.Some? {
      step := HolderCanStep(s);
    } else {
      step := CtlStep;
    }
  }

  /** A run with as many steps of resize itself as the rank says contains its return, with n threads. */
  lemma {:induction false} ResizeGetsToReturn(s: State, n: nat, steps: seq<Step>, s': State)
    returns (k: nat, m: State)
    requires Resizes(s, n) && (Resizing(s.ctl) || s.ctl.Idle?)
    requires Reaches(s, steps, s') && CtlSteps(steps) >= ResizeRank(s)
    ensures k <= |steps| && Reaches(s, steps[..k], m) && m.ctl.Idle? && |m.threads| == n
    decreases |steps|
  {
    hide Next, Enabled;
    if s.ctl.Idle? {
      k, m := 0, s;
    } else {
      ResizeProgress(s, n, steps[0]);
      k, m := ResizeGetsToReturn(Next(s, steps[0]), n, steps[1..], s');
      assert steps[..k + 1][1..] == steps[1..][..k];
      k := k + 1;
    }
  }

  /** The whole of a resize; the number of its own steps is known when it is called. */
  lemma {:induction false} ResizeReturnsFromCall(s: State, n: nat, steps: seq<Step>, s': State)
    returns (k: nat, m: State)
    requires s.ctl.Idle? && !s.isDone && !s.isStop
    requires Reaches(Next(s, CallResize(n)), steps, s')
    requires CtlSteps(steps) >= if |s.threads| <= n then n - |s.threads| + 1 else |s.threads| - n + 5
    ensures k <= |steps| && Reaches(Next(s, CallResize(n)), steps[..k], m) && m.ctl.Idle? && |m.threads| == n
  {
    hide Reaches, CtlSteps;
    k, m := ResizeGetsToReturn(Next(s, CallResize(n)), n, steps, s');
  }
}
