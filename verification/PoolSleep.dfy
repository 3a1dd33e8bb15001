/** How a worker falls asleep, and what a spurious wake-up does: nothing. */
module PoolSleep {
  import opened Basics
  import opened Pool
  import opened PoolRuns
  import opened PoolTheorems

  /** A step of a worker that takes no task, runs none and frees none. */
  lemma {:induction false} QuietStep(s: State, i: nat)
    requires WorkerCanStep(s, i)
    requires var a := Decide(s.workers[i], Front(s), s.isDone); !a.takes && a.runs.None? && a.frees.None?
    ensures var a := Decide(s.workers[i], Front(s), s.isDone);
      Next(s, WorkerStep(i)) == SetPc(s, i, a.pc).(
        mutex := match a.use case Keep => s.mutex case Lock => Some(W(i)) case Unlock => None,
        nWaiting := s.nWaiting + a.waiting)
  {
    hide Decide;
    assert s.h.completed + multiset{} == s.h.completed && s.h.freed + multiset{} == s.h.freed;
  }

  /** Nothing to do, and nothing to stop for. */
  predicate NothingToDo(s: State, i: nat) {
    s.queue == [] && !s.isDone && s.mutex.None? && i < |s.workers| && !s.workers[i].flag
  }

  /** s with worker i at another place, holding the mutex. */
  function Holder(s: State, i: nat, pc: Pc): (s': State)
    requires i < |s.workers|
  {
    SetPc(s, i, pc).(mutex := Some(W(i)))
  }

  lemma {:induction false} WillSleepSleeps(s: State, i: nat)
    requires NothingToDo(s, i)
    ensures Reaches(Holder(s, i, WillSleep), Repeat(WorkerStep(i), 1), SetPc(s, i, Asleep))
  {
    QuietStep(Holder(s, i, WillSleep), i);
    var s' := SetPc(s, i, Asleep);
    assert Next(Holder(s, i, WillSleep), WorkerStep(i)) == s';
    assert Reaches(s', Repeat(WorkerStep(i), 0), s');
    hide Reaches;
    Prepend(Holder(s, i, WillSleep), WorkerStep(i), 0, s');
  }

  /** Finding the queue empty, isDone not set and the flag not set, a worker blocks. */
  lemma {:induction false} ChecksInVain(s: State, i: nat, woken: bool)
    requires NothingToDo(s, i)
    ensures Reaches(Holder(s, i, Check(woken)), Repeat(WorkerStep(i), 4), SetPc(s, i, Asleep))
  {
    hide Reaches;
    var a, b, c := Holder(s, i, Check(woken)), Holder(s, i, ReadDone), Holder(s, i, ReadFlag);
    QuietStep(a, i);
    QuietStep(b, i);
    QuietStep(c, i);
    WillSleepSleeps(s, i);
    assert Next(a, WorkerStep(i)) == b && Next(b, WorkerStep(i)) == c;
    assert Next(c, WorkerStep(i)) == Holder(s, i, WillSleep);
    Prepend(c, WorkerStep(i), 1, SetPc(s, i, Asleep));
    Prepend(b, WorkerStep(i), 2, SetPc(s, i, Asleep));
    Prepend(a, WorkerStep(i), 3, SetPc(s, i, Asleep));
  }

  /** A worker that found the queue empty and finds it so again under the mutex is asleep after six
      steps, and counted as idle. */
  lemma {:induction false} IdleWorkerSleeps(s: State, i: nat)
    requires NothingToDo(s, i) && s.workers[i].pc.WantLock?
    ensures Reaches(s, Repeat(WorkerStep(i), 6), SetPc(s, i, Asleep).(nWaiting := s.nWaiting + 1))
  {
    hide Reaches;
    var a, b := Holder(s, i, Locked), s.(nWaiting := s.nWaiting + 1);
    var s' := SetPc(s, i, Asleep).(nWaiting := s.nWaiting + 1);
    QuietStep(s, i);
    QuietStep(a, i);
    ChecksInVain(b, i, false);
    assert Next(s, WorkerStep(i)) == a && Next(a, WorkerStep(i)) == Holder(b, i, Check(false));
    assert SetPc(b, i, Asleep) == s';
    Prepend(a, WorkerStep(i), 4, s');
    Prepend(s, WorkerStep(i), 5, s');
  }

  /** A sleeper woken for no reason checks, and sleeps again: the pool is as it was. */
  lemma {:induction false} SpuriousWakeupChangesNothing(s: State, i: nat)
    requires NothingToDo(s, i) && IsAsleep(s, i)
    ensures Enabled(s, Spurious(i)) && Reaches(Next(s, Spurious(i)), Repeat(WorkerStep(i), 5), s)
  {
    hide Reaches;
    var a := Next(s, Spurious(i));
    QuietStep(a, i);
    ChecksInVain(s, i, true);
    assert Next(a, WorkerStep(i)) == Holder(s, i, Check(true));
    assert SetPc(s, i, Asleep) == s;
    Prepend(a, WorkerStep(i), 4, s);
  }

  /** A pool of one thread that has nothing to do comes to sleep. */
  lemma {:induction false} SleeperIsReachable() returns (s: State)
    ensures Reachable(s) && SomeAsleep(s) && s.queue == [] && s.threads == [0] && s.nWaiting == 1
  {
    var i := Init();
    var steps := [];
    s := i;
    hide Reaches;
    assert Reaches(i, steps, s) by { StartOfRun(i); }
    steps, s := Then(i, steps, s, CallResize(1));
    steps, s := Then(i, steps, s, CtlStep);
    steps, s := Then(i, steps, s, CtlStep);
    steps, s := Then(i, steps, s, WorkerStep(0));
    var s' := SetPc(s, 0, Asleep).(nWaiting := 1);
    IdleWorkerSleeps(s, 0);
    RunAppend(i, steps, s, Repeat(WorkerStep(0), 6), s');
    s := s';
    assert IsAsleep(s, 0);
  }
}
