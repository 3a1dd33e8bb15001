/** The stages of resize and stop, and the invariant over whole runs. */
module PoolRuns {
  import opened Pool
  import opened PoolInvariant

  // ---- controller steps ----

  lemma {:induction false} ThreadsKeptC(s: State)
    requires VectorsOk(s) && CtlCanStep(s)
    ensures DistinctThreads(CtlNext(s))
  {
    hide NotifyAll;
  }

  lemma {:induction false} VectorsKeptC(s: State)
    requires VectorsOk(s) && CtlCanStep(s)
    ensures VectorsOk(CtlNext(s))
  {
    ThreadsKeptC(s);
    hide DistinctThreads, CtlNext;
    if Resizing(s.ctl) {
      CutKeptByResize(s);
    } else {
      CutKeptByStop(s);
    }
  }

  lemma {:induction false} CutKeptByResize(s: State)
    requires Resizing(s.ctl) && VectorsOk(s) && CtlCanStep(s)
    ensures var s' := CtlNext(s); CutAt(s') <= |s'.threads| && (s'.ctl.Flagging? ==> s'.ctl.target <= s'.ctl.next)
    ensures !CtlNext(s).ctl.StopFlagging? && !CtlNext(s).ctl.Joining?
  {
    hide DistinctThreads, NotifyAll;
  }

  lemma {:induction false} CutKeptByStop(s: State)
    requires !Resizing(s.ctl) && VectorsOk(s) && CtlCanStep(s)
    ensures var s' := CtlNext(s); CutAt(s') == |s'.threads| && !s'.ctl.Flagging?
    ensures var s' := CtlNext(s); s'.ctl.StopFlagging? || s'.ctl.Joining? ==> s'.ctl.next <= |s'.threads|
  {
    hide DistinctThreads, NotifyAll;
  }

  lemma {:induction false} StagesKeptC(s: State)
    requires StagesOk(s) && CtlCanStep(s)
    ensures StagesOk(CtlNext(s))
  {
    hide NotifyAll;
  }

  lemma {:induction false} FlagsWhyKeptC(s: State)
    requires VectorsOk(s) && StagesOk(s) && FlagsWhy(s) && CtlCanStep(s)
    ensures VectorsOk(CtlNext(s)) && FlagsWhy(CtlNext(s))
  {
    VectorsKeptC(s);
  }

  lemma {:induction false} FlagsSetKeptC(s: State)
    requires VectorsOk(s) && StagesOk(s) && FlagsSet(s) && CtlCanStep(s)
    ensures VectorsOk(CtlNext(s)) && FlagsSet(CtlNext(s))
  {
    VectorsKeptC(s);
  }

  lemma {:induction false} OutsideKeptC(s: State)
    requires VectorsOk(s) && OutsideOk(s) && SignalsOk(s) && JoinOk(s) && CtlCanStep(s)
    ensures OutsideOk(CtlNext(s))
  {
    hide DistinctThreads;
  }

  lemma {:induction false} SignalsKeptC(s: State)
    requires VectorsOk(s) && StagesOk(s) && FlagsSet(s) && SignalsOk(s) && CtlCanStep(s)
    ensures VectorsOk(CtlNext(s)) && SignalsOk(CtlNext(s))
  {
    VectorsKeptC(s);
  }

  lemma {:induction false} JoinKeptC(s: State)
    requires VectorsOk(s) && JoinOk(s) && CtlCanStep(s)
    ensures VectorsOk(CtlNext(s)) && JoinOk(CtlNext(s))
  {
    VectorsKeptC(s);
  }

  // ---- calls, pushers and wake-ups ----

  lemma {:induction false} VectorsKeptX(s: State, step: Step)
    requires VectorsOk(s) && Enabled(s, step) && External(step)
    ensures VectorsOk(Next(s, step))
  {
    ExternalFrame(s, step);
    hide WorkerNext, CtlNext, SomeAsleep;
  }

  lemma {:induction false} StagesKeptX(s: State, step: Step)
    requires StagesOk(s) && Enabled(s, step) && External(step)
    ensures StagesOk(Next(s, step))
  {
    hide WorkerNext, CtlNext, SomeAsleep;
  }

  lemma {:induction false} FlagsKeptX(s: State, step: Step)
    requires VectorsOk(s) && FlagsWhy(s) && FlagsSet(s) && Enabled(s, step) && External(step)
    ensures VectorsOk(Next(s, step)) && FlagsWhy(Next(s, step)) && FlagsSet(Next(s, step))
  {
    VectorsKeptX(s, step);
    ExternalFrame(s, step);
    if step.CallResize? || step.CallStop? {
      hide WorkerNext, CtlNext, SomeAsleep;
      assert Next(s, step) == Called(s, step);
    } else {
      hide Next, Enabled;
    }
  }

  lemma {:induction false} SignalsKeptX(s: State, step: Step)
    requires VectorsOk(s) && OutsideOk(s) && SignalsOk(s) && Enabled(s, step) && External(step)
    ensures VectorsOk(Next(s, step)) && OutsideOk(Next(s, step)) && SignalsOk(Next(s, step))
  {
    VectorsKeptX(s, step);
    ExternalFrame(s, step);
    if step.CallResize? || step.CallStop? {
      hide WorkerNext, CtlNext, SomeAsleep;
      assert Next(s, step) == Called(s, step);
    } else {
      hide Next, Enabled;
    }
  }

  lemma {:induction false} JoinKeptX(s: State, step: Step)
    requires VectorsOk(s) && JoinOk(s) && Enabled(s, step) && External(step)
    ensures VectorsOk(Next(s, step)) && JoinOk(Next(s, step))
  {
    VectorsKeptX(s, step);
    ExternalFrame(s, step);
    if step.CallResize? || step.CallStop? {
      hide WorkerNext, CtlNext, SomeAsleep;
      assert Next(s, step) == Called(s, step);
    } else {
      hide Next, Enabled;
    }
  }

  // ---- workers ----

  lemma {:induction false} StageKeptW(s: State, i: nat)
    requires VectorsOk(s) && StagesOk(s) && FlagsWhy(s) && FlagsSet(s) && OutsideOk(s) && SignalsOk(s) && JoinOk(s)
    requires WorkerCanStep(s, i)
    ensures var s' := WorkerNext(s, i);
      VectorsOk(s') && StagesOk(s') && FlagsWhy(s') && FlagsSet(s') && OutsideOk(s') && SignalsOk(s') && JoinOk(s')
  {
    hide Decide;
  }

  // ---- draining ----

  lemma {:induction false} DrainKeptW(s: State, i: nat)
    requires DrainOk(s) && WorkerCanStep(s, i)
    ensures DrainOk(WorkerNext(s, i))
  {
    hide Decide;
    var s', w := WorkerNext(s, i), s.workers[i];
    DecideTakes(w, Front(s), s.isDone);
    if !w.flag {
      DecideLeave(w, Front(s), s.isDone);
    }
  }

  lemma {:induction false} DrainKeptC(s: State)
    requires StagesOk(s) && DrainOk(s) && CtlCanStep(s)
    ensures DrainOk(CtlNext(s))
  {
    var s' := CtlNext(s);
    CtlFrame(s);
    hide CtlNext;
    forall i | 0 <= i < |s'.workers| && !s'.workers[i].flag && LeftEmptyHanded(s'.workers[i].pc) ensures s'.isDone {
      WorkersFrameC(s, i);
    }
  }

  lemma {:induction false} DrainKeptCall(s: State, call: Step)
    requires DrainOk(s) && Enabled(s, call) && (call.CallResize? || call.CallStop?)
    ensures DrainOk(Next(s, call))
  {
    hide WorkerNext, CtlNext, SomeAsleep, LeftEmptyHanded;
    assert Next(s, call).workers == s.workers && Next(s, call).queue == s.queue;
  }

  lemma {:induction false} DrainKeptX(s: State, step: Step)
    requires DrainOk(s) && Enabled(s, step) && External(step)
    ensures DrainOk(Next(s, step))
  {
    if step.CallResize? || step.CallStop? {
      DrainKeptCall(s, step);
    } else {
      ExternalFrame(s, step);
      hide Next, Enabled;
    }
  }

  lemma {:induction false} NoSleepKept(s: State, step: Step)
    requires MutexOk(s) && StagesOk(s) && NoSleepOk(s) && Enabled(s, step)
    ensures NoSleepOk(Next(s, step))
  {
    var s' := Next(s, step);
    if step.WorkerStep? {
      hide Decide;
      if s.isDone {
        DecideSleep(s.workers[step.i], Front(s));
      }
    } else if step.CtlStep? {
      forall i | 0 <= i < |s'.workers| && s'.isDone && !BeforeNotify(s')
        ensures !OnWayToSleep(s'.workers[i].pc)
      {
        CtlFrame(s);
        WorkersFrameC(s, i);
        assert BeforeNotify(s) ==> s.ctl.Notifying?;
      }
    } else {
      ExternalFrame(s, step);
      hide WorkerNext, CtlNext, SomeAsleep;
    }
  }

  // ---- whole runs ----

  lemma {:induction false} StageKept(s: State, step: Step)
    requires VectorsOk(s) && StagesOk(s) && FlagsWhy(s) && FlagsSet(s) && OutsideOk(s) && SignalsOk(s) && JoinOk(s)
    requires Enabled(s, step)
    ensures var s' := Next(s, step);
      VectorsOk(s') && StagesOk(s') && FlagsWhy(s') && FlagsSet(s') && OutsideOk(s') && SignalsOk(s') && JoinOk(s')
  {
    hide WorkerNext, CtlNext, VectorsOk, StagesOk, FlagsWhy, FlagsSet, OutsideOk, SignalsOk, JoinOk;
    if step.WorkerStep? {
      StageKeptW(s, step.i);
    } else if step.CtlStep? {
      VectorsKeptC(s);
      StagesKeptC(s);
      FlagsWhyKeptC(s);
      FlagsSetKeptC(s);
      OutsideKeptC(s);
      SignalsKeptC(s);
      JoinKeptC(s);
    } else {
      VectorsKeptX(s, step);
      StagesKeptX(s, step);
      FlagsKeptX(s, step);
      SignalsKeptX(s, step);
      JoinKeptX(s, step);
    }
  }

  lemma {:induction false} InvKept(s: State, step: Step)
    requires Inv(s) && Enabled(s, step)
    ensures Inv(Next(s, step))
  {
    hide WorkerNext, CtlNext, MutexOk, QueueOk, WaitOk, Conserved, WakeOk, AbortOk, VectorsOk, StagesOk,
      FlagsWhy, FlagsSet, OutsideOk, SignalsOk, JoinOk, DrainOk, NoSleepOk;
    MutexKept(s, step);
    QueueKept(s, step);
    WaitKept(s, step);
    ConservedKept(s, step);
    AbortKept(s, step);
    StageKept(s, step);
    NoSleepKept(s, step);
    if step.WorkerStep? {
      WakeKeptW(s, step.i);
      DrainKeptW(s, step.i);
    } else if step.CtlStep? {
      WakeKeptC(s);
      DrainKeptC(s);
    } else {
      WakeKeptX(s, step);
      DrainKeptX(s, step);
    }
  }

  lemma {:induction false} VectorsPart(s: State)
    requires Inv(s)
    ensures VectorsOk(s)
  {
  }

  lemma {:induction false} RunKeepsInv(s: State, steps: seq<Step>, s': State)
    requires Inv(s) && Reaches(s, steps, s')
    ensures Inv(s')
    decreases |steps|
  {
    hide Inv, Enabled, Next;
    if steps == [] {
    } else {
      InvKept(s, steps[0]);
      RunKeepsInv(Next(s, steps[0]), steps[1..], s');
    }
  }

  ghost predicate Reachable(s: State) {
    exists steps :: Reaches(Init(), steps, s)
  }

  lemma {:induction false} ReachableInv(s: State)
    requires Reachable(s)
    ensures Inv(s)
  {
    hide Inv;
    var steps :| Reaches(Init(), steps, s);
    InitInv();
    RunKeepsInv(Init(), steps, s);
  }
}
