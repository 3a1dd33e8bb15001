/** What every reachable state of the pool satisfies. */
module PoolInvariant {
  import opened Basics
  import opened Pool

  // ---- counting workers ----

  datatype Kind =
    | InWait               // inside the section that nWaiting counts
    | Rewoken              // woken, has not popped again yet
    | Holding(t: Task)     // has taken t and not finished running it
    | Owning(t: Task)      // will free t

  predicate InWaitSection(pc: Pc) {
    pc.Check? || pc.ReadDone? || pc.ReadFlag? || pc.WillSleep? || pc.Asleep? || pc.Woken? || pc.Leaving?
  }

  predicate Holds(pc: Pc, t: Task) {
    || pc == Running(t)
    || pc == Leaving(Some(t))
    || pc == Unlocking(Some(t))
  }

  predicate Is(w: Worker, k: Kind) {
    match k
    case InWait => InWaitSection(w.pc)
    case Rewoken => w.pc.Woken? || w.pc == Check(true)
    case Holding(t) => Holds(w.pc, t)
    case Owning(t) => Holds(w.pc, t) || w.pc == Ran(t) || w.pc == Repop(t)
  }

  function One(b: bool): (n: nat) { if b then 1 else 0 }

  function Count(ws: seq<Worker>, k: Kind): (n: nat) {
    if ws == [] then 0 else Count(ws[..|ws| - 1], k) + One(Is(ws[|ws| - 1], k))
  }

  lemma {:induction false} CountAppend(ws: seq<Worker>, w: Worker, k: Kind)
    ensures Count(ws + [w], k) == Count(ws, k) + One(Is(w, k))
  {
    assert (ws + [w])[..|ws|] == ws;
  }

  lemma {:induction false} CountUpdate(ws: seq<Worker>, i: nat, w: Worker, k: Kind)
    requires i < |ws|
    ensures Count(ws[i := w], k) + One(Is(ws[i], k)) == Count(ws, k) + One(Is(w, k))
  {
    var n := |ws| - 1;
    if i == n {
      assert ws[i := w][..n] == ws[..n];
    } else {
      CountUpdate(ws[..n], i, w, k);
      assert ws[i := w][..n] == ws[..n][i := w];
    }
  }

  lemma {:induction false} CountSame(ws: seq<Worker>, ws': seq<Worker>, k: Kind)
    requires |ws| == |ws'| && forall i :: 0 <= i < |ws| ==> Is(ws[i], k) == Is(ws'[i], k)
    ensures Count(ws, k) == Count(ws', k)
  {
    if ws == [] {
    } else {
      CountSame(ws[..|ws| - 1], ws'[..|ws| - 1], k);
    }
  }

  lemma {:induction false} CountSome(ws: seq<Worker>, i: nat, k: Kind)
    requires i < |ws| && Is(ws[i], k)
    ensures Count(ws, k) >= 1
  {
    CountUpdate(ws, i, FreshWorker(), k);
  }

  lemma {:induction false} CountWitness(ws: seq<Worker>, k: Kind) returns (i: nat)
    requires Count(ws, k) >= 1
    ensures i < |ws| && Is(ws[i], k)
  {
    i := |ws| - 1;
    if !Is(ws[i], k) {
      i := CountWitness(ws[..|ws| - 1], k);
    }
  }

  // ---- the parts of the invariant ----

  function Range(n: nat): (r: seq<nat>)
    ensures |r| == n
  {
    seq(n, i => i)
  }

  /** The mutex is held by exactly who is in a section that holds it. */
  ghost predicate MutexOk(s: State) {
    && (forall i :: 0 <= i < |s.workers| ==> (HoldsMutex(s.workers[i].pc) <==> s.mutex == Some(W(i))))
    && (s.mutex.Some? && s.mutex.value.W? ==> s.mutex.value.i < |s.workers|)
    && (s.ctl.Notifying? || s.ctl.Notified? <==> s.mutex == Some(C))
  }

  /** First in, first out: what has left and what is queued are the pushes in order. */
  ghost predicate QueueOk(s: State) {
    && s.h.dequeued + s.queue == Range(s.h.pushed)
    && (forall t :: t in s.inflight ==> t < s.h.pushed)
  }

  ghost predicate WaitOk(s: State) {
    s.nWaiting == Count(s.workers, InWait)
  }

  /** How many times t is somewhere. */
  function Copies(s: State, t: Task): (n: nat) {
    multiset(s.queue)[t] + Count(s.workers, Holding(t))
    + s.h.completed[t] + s.h.handedOut[t] + s.h.cleared[t] + s.h.dropped[t]
  }

  /** How many times the functor t is still to be deleted or was deleted. */
  function Pointers(s: State, t: Task): (n: nat) {
    multiset(s.queue)[t] + Count(s.workers, Owning(t)) + s.h.freed[t]
  }

  ghost predicate Conserved(s: State) {
    forall t: Task :: Copies(s, t) == Pointers(s, t) == One(t < s.h.pushed)
  }

  predicate FoundEmpty(pc: Pc) { pc.ReadDone? || pc.ReadFlag? || pc.WillSleep? }

  /** No lost wake-up. */
  ghost predicate WakeOk(s: State) {
    && (forall i :: 0 <= i < |s.workers| && FoundEmpty(s.workers[i].pc)
          ==> forall t :: t in s.queue ==> t in s.inflight)
    && (SomeAsleep(s) ==> |s.queue| <= |s.inflight| + Count(s.workers, Rewoken))
  }

  /** A worker told to stop takes at most one more task, and leaves right after it; once
      notified it does not go to sleep. */
  ghost predicate WorkerAbortOk(w: Worker) {
    && (!w.flag ==> w.starts == 0 && !w.signalled)
    && w.starts <= 1
    && (w.starts == 1 ==>
          w.pc.Running? || w.pc.Ran? || w.pc.Exited?
          || ((w.pc.Leaving? || w.pc.Unlocking?) && w.pc.got.Some?))
    && (w.signalled ==> !w.pc.WillSleep? && !w.pc.Asleep?)
  }

  ghost predicate AbortOk(s: State) {
    forall i :: 0 <= i < |s.workers| ==> WorkerAbortOk(s.workers[i])
  }

  // ---- stages of resize and stop ----

  /** The position from which on the entries of `threads` are being removed. */
  function CutAt(s: State): (n: nat) {
    match s.ctl
    case Flagging(next, _) => next
    case WantNotify(ThenTruncate(target)) => target
    case Notifying(ThenTruncate(target)) => target
    case Notified(ThenTruncate(target)) => target
    case Truncating(target) => target
    case _ => |s.threads|
  }

  predicate Resizing(ctl: Ctl) {
    || ctl.Spawning? || ctl.Flagging? || ctl.Truncating?
    || ((ctl.WantNotify? || ctl.Notifying? || ctl.Notified?) && ctl.after.ThenTruncate?)
  }

  predicate StopWaits(ctl: Ctl) {
    || ctl.Joining? || ctl.FinalClear? || ctl.ClearVectors?
    || ((ctl.WantNotify? || ctl.Notifying? || ctl.Notified?) && ctl.after.ThenJoin?)
  }

  ghost predicate DistinctThreads(s: State) {
    && (forall k :: 0 <= k < |s.threads| ==> s.threads[k] < |s.workers|)
    && (forall j, k :: 0 <= j < k < |s.threads| ==> s.threads[j] != s.threads[k])
  }

  ghost predicate VectorsOk(s: State) {
    && DistinctThreads(s)
    && CutAt(s) <= |s.threads|
    && (s.ctl.Flagging? ==> s.ctl.target <= s.ctl.next)
    && (s.ctl.StopFlagging? ==> s.ctl.next <= |s.threads|)
    && (s.ctl.Joining? ==> s.ctl.next <= |s.threads|)
  }

  ghost predicate StagesOk(s: State) {
    && (Resizing(s.ctl) ==> !s.isDone && !s.isStop)
    && (s.ctl.StopFlagging? || s.ctl.StopClearing? ==> s.isStop)
    && (StopWaits(s.ctl) ==> s.isDone || s.isStop)
    && (s.isDone || s.isStop ==> s.ctl.Idle? || (s.isDone && s.isStop) ==> s.threads == [])
  }

  /** Which flags may be set ... */
  ghost predicate FlagsWhy(s: State)
    requires VectorsOk(s)
  {
    forall k :: 0 <= k < |s.threads| && s.workers[s.threads[k]].flag ==> s.isStop || k >= CutAt(s)
  }

  /** ... and which are. */
  ghost predicate FlagsSet(s: State)
    requires VectorsOk(s)
  {
    && (forall k :: CutAt(s) <= k < |s.threads| ==> s.workers[s.threads[k]].flag)
    && (s.isStop ==>
          forall k :: 0 <= k < |s.threads| && (s.ctl.StopFlagging? ==> k < s.ctl.next) ==>
            s.workers[s.threads[k]].flag)
  }

  /** Only workers that exited, or were flagged and notified, are out of the vectors. */
  ghost predicate OutsideOk(s: State) {
    forall i :: 0 <= i < |s.workers| ==>
      s.workers[i].signalled || s.workers[i].pc.Exited? || i in s.threads
  }

  /** After notify_all the threads that were flagged before it are signalled. */
  ghost predicate SignalsOk(s: State)
    requires VectorsOk(s)
  {
    && (s.ctl.Truncating? || s.ctl.Notified? ==>
          forall k :: CutAt(s) <= k < |s.threads| ==> s.workers[s.threads[k]].signalled)
    && (s.isStop && (s.ctl.Notified? || s.ctl.Joining? || s.ctl.FinalClear? || s.ctl.ClearVectors?) ==>
          forall k :: 0 <= k < |s.threads| ==> s.workers[s.threads[k]].signalled)
  }

  ghost predicate JoinOk(s: State)
    requires VectorsOk(s)
  {
    && (s.ctl.Joining? ==> forall k :: 0 <= k < s.ctl.next ==> s.workers[s.threads[k]].pc.Exited?)
    && (s.ctl.FinalClear? || s.ctl.ClearVectors? ==>
          forall k :: 0 <= k < |s.threads| ==> s.workers[s.threads[k]].pc.Exited?)
  }

  // ---- draining ----

  /** stop(true) has set isDone and has not notified yet. */
  predicate BeforeNotify(s: State) {
    s.isDone && !s.isStop && (s.ctl.WantNotify? || s.ctl.Notifying?)
  }

  predicate LeftEmptyHanded(pc: Pc) {
    pc == Leaving(None) || pc == Unlocking(None) || pc.Exited?
  }

  /** Nothing is dropped before stop is called, and no worker leaves before it is told to. */
  ghost predicate DrainOk(s: State) {
    && (!s.isDone && !s.isStop ==> s.h.dropped == multiset{})
    && (forall i :: 0 <= i < |s.workers| && !s.workers[i].flag && LeftEmptyHanded(s.workers[i].pc) ==> s.isDone)
  }

  predicate OnWayToSleep(pc: Pc) { pc.ReadFlag? || pc.WillSleep? || pc.Asleep? }

  /** Once stop(true) has notified, no worker is asleep or about to be. */
  ghost predicate NoSleepOk(s: State) {
    s.isDone && !BeforeNotify(s) ==>
      forall i :: 0 <= i < |s.workers| ==> !OnWayToSleep(s.workers[i].pc)
  }

  ghost predicate Inv(s: State) {
    && MutexOk(s) && QueueOk(s) && WaitOk(s) && Conserved(s) && WakeOk(s) && AbortOk(s)
    && VectorsOk(s) && StagesOk(s) && FlagsWhy(s) && FlagsSet(s) && OutsideOk(s) && SignalsOk(s) && JoinOk(s)
    && DrainOk(s) && NoSleepOk(s)
  }

  lemma {:induction false} InitInv()
    ensures Inv(Init())
  {
  }

  // ---- what one action of a worker does, by itself ----

  predicate Acting(w: Worker) { !w.pc.Asleep? && !w.pc.Exited? }

  lemma {:induction false} DecideTakes(w: Worker, front: Option<Task>, isDone: bool)
    ensures Decide(w, front, isDone).takes ==> front.Some?
  {
  }

  lemma {:induction false} DecideMutex(w: Worker, front: Option<Task>, isDone: bool)
    requires Acting(w)
    ensures var a := Decide(w, front, isDone);
      && (HoldsMutex(a.pc) <==> a.use.Lock? || (a.use.Keep? && HoldsMutex(w.pc)))
      && (a.use.Unlock? ==> HoldsMutex(w.pc))
      && (a.use.Lock? ==> w.pc.WantLock? || w.pc.Woken?)
  {
  }

  lemma {:induction false} DecideWaiting(w: Worker, front: Option<Task>, isDone: bool)
    requires Acting(w)
    ensures var a := Decide(w, front, isDone);
      a.waiting == One(InWaitSection(a.pc)) - One(InWaitSection(w.pc))
  {
  }

  lemma {:induction false} DecideAbort(w: Worker, front: Option<Task>, isDone: bool)
    requires Acting(w) && WorkerAbortOk(w)
    ensures WorkerAbortOk(Acted(w, Decide(w, front, isDone)))
  {
  }

  lemma {:induction false} DecideHolding(w: Worker, front: Option<Task>, isDone: bool, t: Task)
    requires Acting(w)
    ensures var a := Decide(w, front, isDone);
      One(Holds(a.pc, t)) + Bag(a.runs)[t] == One(Holds(w.pc, t)) + One(a.takes && front == Some(t))
  {
  }

  lemma {:induction false} DecideOwning(w: Worker, front: Option<Task>, isDone: bool, t: Task)
    requires Acting(w)
    ensures var a := Decide(w, front, isDone); var w' := Acted(w, a);
      One(Is(w', Owning(t))) + Bag(a.frees)[t] == One(Is(w, Owning(t))) + One(a.takes && front == Some(t))
  {
  }

  /** A worker comes to have found the queue empty only by finding it empty. */
  lemma {:induction false} DecideWake(w: Worker, front: Option<Task>, isDone: bool)
    requires Acting(w)
    ensures var a := Decide(w, front, isDone); var w' := Acted(w, a);
      && (FoundEmpty(a.pc) ==> FoundEmpty(w.pc) || front.None?)
      && (a.pc.Asleep? ==> FoundEmpty(w.pc))
      && (Is(w, Rewoken) && !Is(w', Rewoken) ==> a.takes || front.None?)
  {
  }

  lemma {:induction false} DecideLeave(w: Worker, front: Option<Task>, isDone: bool)
    requires Acting(w) && !w.flag
    ensures LeftEmptyHanded(Decide(w, front, isDone).pc) ==>
      LeftEmptyHanded(w.pc) || (w.pc.ReadDone? && isDone)
  {
  }

  /** With isDone set nobody starts on the way to sleep. */
  lemma {:induction false} DecideSleep(w: Worker, front: Option<Task>)
    requires Acting(w)
    ensures OnWayToSleep(Decide(w, front, true).pc) ==> OnWayToSleep(w.pc)
  {
  }

  // ---- each part is kept by each step ----

  ghost predicate External(step: Step) { !step.WorkerStep? && !step.CtlStep? }

  /** A controller step deletes the front task or leaves queue and history alone. */
  lemma {:induction false} CtlFrame(s: State)
    requires CtlCanStep(s)
    ensures var s' := CtlNext(s);
      if s.queue != [] && (s.ctl.StopClearing? || s.ctl.FinalClear?)
      then s' == DropFront(s)
      else s'.queue == s.queue && s'.h == s.h
    ensures CtlNext(s).inflight == s.inflight && CtlNext(s).isDone == s.isDone && CtlNext(s).isStop == s.isStop
  {
    hide NotifyAll;
  }

  /** What such a step does to the queue and to the record of where tasks are. */
  lemma {:induction false} ExternalQueue(s: State, step: Step)
    requires Enabled(s, step) && External(step)
    ensures var s' := Next(s, step); var gone := s'.h.handedOut + s'.h.cleared;
      && s'.h.completed == s.h.completed && s'.h.dropped == s.h.dropped
      && if step.Push? then
           s'.queue == s.queue + [s.h.pushed] && s'.h.pushed == s.h.pushed + 1
           && s'.h.handedOut == s.h.handedOut && s'.h.cleared == s.h.cleared && s'.h.freed == s.h.freed
         else if step.UserPop? || step.UserClear? then
           s.queue != [] && s'.queue == s.queue[1..] && s'.h.pushed == s.h.pushed
           && gone == s.h.handedOut + s.h.cleared + multiset{s.queue[0]}
           && s'.h.freed == s.h.freed + multiset{s.queue[0]}
         else
           s'.queue == s.queue && s'.h.pushed == s.h.pushed
           && s'.h.handedOut == s.h.handedOut && s'.h.cleared == s.h.cleared && s'.h.freed == s.h.freed
  {
    hide WorkerNext, CtlNext, SomeAsleep;
  }

  /** A step of a pusher or caller, or a spurious wake-up, at most wakes one sleeper. */
  lemma {:induction false} ExternalFrame(s: State, step: Step)
    requires Enabled(s, step) && External(step)
    ensures var s' := Next(s, step);
      && s'.threads == s.threads && |s'.workers| == |s.workers|
      && (forall i :: 0 <= i < |s.workers| ==>
            s'.workers[i] == s.workers[i] || (s.workers[i].pc.Asleep? && s'.workers[i] == s.workers[i].(pc := Woken)))
      && s'.h.dropped == s.h.dropped
      && (!step.CallResize? && !step.CallStop? ==>
            s'.ctl == s.ctl && s'.isDone == s.isDone && s'.isStop == s.isStop)
  {
    hide WorkerNext, CtlNext, SomeAsleep;
  }

  lemma {:induction false} MutexKept(s: State, step: Step)
    requires MutexOk(s) && Enabled(s, step)
    ensures MutexOk(Next(s, step))
  {
    hide Decide;
    if step.WorkerStep? {
      MutexKeptW(s, step.i);
    } else if step.CtlStep? {
      MutexKeptC(s);
    } else {
      MutexKeptX(s, step);
    }
  }

  lemma {:induction false} MutexKeptW(s: State, i: nat)
    requires MutexOk(s) && WorkerCanStep(s, i)
    ensures MutexOk(WorkerNext(s, i))
  {
    hide Decide;
    DecideMutex(s.workers[i], Front(s), s.isDone);
  }

  lemma {:induction false} CtlMutex(s: State)
    requires CtlCanStep(s) && (s.ctl.Notifying? || s.ctl.Notified? <==> s.mutex == Some(C))
    ensures var s' := CtlNext(s);
      && (s'.ctl.Notifying? || s'.ctl.Notified? <==> s'.mutex == Some(C))
      && (s'.mutex == s.mutex || ((s.mutex == None || s.mutex == Some(C)) && (s'.mutex == None || s'.mutex == Some(C))))
      && |s'.workers| >= |s.workers|
  {
    hide NotifyAll;
  }

  lemma {:induction false} MutexKeptC(s: State)
    requires MutexOk(s) && CtlCanStep(s)
    ensures MutexOk(CtlNext(s))
  {
    hide CtlNext;
    CtlMutex(s);
    var s' := CtlNext(s);
    forall i | 0 <= i < |s'.workers| ensures HoldsMutex(s'.workers[i].pc) <==> s'.mutex == Some(W(i)) {
      WorkersFrameC(s, i);
    }
  }

  /** What a controller step does to a worker that was there before. */
  lemma {:induction false} WorkersFrameC(s: State, i: nat)
    requires CtlCanStep(s) && i < |CtlNext(s).workers|
    ensures i >= |s.workers| ==> CtlNext(s).workers[i] == FreshWorker()
    ensures i < |s.workers| ==>
      var w, w' := s.workers[i], CtlNext(s).workers[i];
      && (w'.pc == w.pc || (w.pc.Asleep? && w'.pc.Woken?))
      && (w.flag ==> w'.flag) && w'.starts == w.starts
      && (s.ctl.Notifying? ==> !w'.pc.Asleep?)
  {
  }

  lemma {:induction false} MutexKeptX(s: State, step: Step)
    requires MutexOk(s) && Enabled(s, step) && External(step)
    ensures MutexOk(Next(s, step))
  {
    hide CtlNext, WorkerNext;
  }

  /** Taking the front task or adding one at the back keeps the order. */
  lemma {:induction false} QueueShift(s: State)
    requires QueueOk(s)
    ensures s.queue != [] ==> (s.h.dequeued + [s.queue[0]]) + s.queue[1..] == Range(s.h.pushed)
    ensures s.h.dequeued + (s.queue + [s.h.pushed]) == Range(s.h.pushed + 1)
  {
    assert s.h.dequeued + (s.queue + [s.h.pushed]) == (s.h.dequeued + s.queue) + [s.h.pushed];
    if s.queue != [] {
      assert s.queue == [s.queue[0]] + s.queue[1..];
      assert (s.h.dequeued + [s.queue[0]]) + s.queue[1..] == s.h.dequeued + s.queue;
    }
  }

  lemma {:induction false} QueueKeptX(s: State, step: Step)
    requires QueueOk(s) && Enabled(s, step) && External(step)
    ensures QueueOk(Next(s, step))
  {
    hide WorkerNext, CtlNext, Range, SomeAsleep;
    QueueShift(s);
  }

  lemma {:induction false} QueueKept(s: State, step: Step)
    requires QueueOk(s) && Enabled(s, step)
    ensures QueueOk(Next(s, step))
  {
    hide Decide, Range, CtlNext;
    if step.WorkerStep? {
      QueueShift(s);
      DecideTakes(s.workers[step.i], Front(s), s.isDone);
    } else if step.CtlStep? {
      QueueShift(s);
      CtlFrame(s);
    } else {
      QueueKeptX(s, step);
    }
  }

  lemma {:induction false} WaitKeptW(s: State, i: nat)
    requires WaitOk(s) && WorkerCanStep(s, i)
    ensures WaitOk(WorkerNext(s, i))
  {
    hide Decide, Count;
    DecideWaiting(s.workers[i], Front(s), s.isDone);
    CountUpdate(s.workers, i, WorkerNext(s, i).workers[i], InWait);
  }

  /** A controller step changes no count of working or waiting threads. */
  lemma {:induction false} CountKeptC(s: State, k: Kind)
    requires CtlCanStep(s) && !k.Rewoken?
    ensures Count(CtlNext(s).workers, k) == Count(s.workers, k)
  {
    hide Count;
    if s.ctl.Spawning? {
      CountAppend(s.workers, FreshWorker(), k);
    } else {
      CountSame(s.workers, CtlNext(s).workers, k);
    }
  }

  /** So do the steps of pushers, callers and spurious wake-ups. */
  lemma {:induction false} CountKeptX(s: State, step: Step, k: Kind)
    requires Enabled(s, step) && External(step) && !k.Rewoken?
    ensures Count(Next(s, step).workers, k) == Count(s.workers, k)
  {
    hide Count, CtlNext, WorkerNext;
    CountSame(s.workers, Next(s, step).workers, k);
  }

  lemma {:induction false} WaitKept(s: State, step: Step)
    requires WaitOk(s) && Enabled(s, step)
    ensures WaitOk(Next(s, step))
  {
    hide Decide, Count;
    if step.WorkerStep? {
      WaitKeptW(s, step.i);
    } else if step.CtlStep? {
      CountKeptC(s, InWait);
    } else {
      CountKeptX(s, step, InWait);
    }
  }

  lemma {:induction false} FrontCounts(q: seq<Task>, t: Task)
    requires q != []
    ensures multiset(q)[t] == multiset(q[1..])[t] + One(q[0] == t)
  {
    assert q == [q[0]] + q[1..];
  }

  lemma {:induction false} CopiesW(s: State, i: nat, t: Task)
    requires WorkerCanStep(s, i)
    ensures Copies(WorkerNext(s, i), t) == Copies(s, t)
  {
    hide Decide, Count, Holds;
    var w, w' := s.workers[i], WorkerNext(s, i).workers[i];
    DecideTakes(w, Front(s), s.isDone);
    DecideHolding(w, Front(s), s.isDone, t);
    CountUpdate(s.workers, i, w', Holding(t));
    if s.queue != [] {
      FrontCounts(s.queue, t);
    }
  }

  lemma {:induction false} PointersW(s: State, i: nat, t: Task)
    requires WorkerCanStep(s, i)
    ensures Pointers(WorkerNext(s, i), t) == Pointers(s, t)
  {
    hide Decide, Count, Is;
    var w, w' := s.workers[i], WorkerNext(s, i).workers[i];
    DecideTakes(w, Front(s), s.isDone);
    DecideOwning(w, Front(s), s.isDone, t);
    CountUpdate(s.workers, i, w', Owning(t));
    if s.queue != [] {
      FrontCounts(s.queue, t);
    }
  }

  lemma {:induction false} CopiesC(s: State, t: Task)
    requires CtlCanStep(s)
    ensures Copies(CtlNext(s), t) == Copies(s, t)
    ensures Pointers(CtlNext(s), t) == Pointers(s, t)
  {
    hide Count, CtlNext;
    CtlFrame(s);
    CountKeptC(s, Holding(t));
    CountKeptC(s, Owning(t));
    if s.queue != [] {
      FrontCounts(s.queue, t);
    }
  }

  lemma {:induction false} CopiesX(s: State, step: Step, t: Task)
    requires Enabled(s, step) && External(step)
    ensures Copies(Next(s, step), t) == Copies(s, t) + One(step.Push? && t == s.h.pushed)
    ensures Pointers(Next(s, step), t) == Pointers(s, t) + One(step.Push? && t == s.h.pushed)
  {
    ExternalQueue(s, step);
    CountKeptX(s, step, Holding(t));
    CountKeptX(s, step, Owning(t));
    hide Count, Next, Enabled;
    var s' := Next(s, step);
    if step.UserPop? || step.UserClear? {
      FrontCounts(s.queue, t);
      assert s'.h.handedOut[t] + s'.h.cleared[t] == (s'.h.handedOut + s'.h.cleared)[t];
    }
  }

  lemma {:induction false} ConservedKept(s: State, step: Step)
    requires Conserved(s) && Enabled(s, step)
    ensures Conserved(Next(s, step))
  {
    hide Decide, Copies, Pointers;
    forall t: Task
      ensures Copies(Next(s, step), t) == Pointers(Next(s, step), t) == One(t < Next(s, step).h.pushed)
    {
      assert Copies(s, t) == Pointers(s, t) == One(t < s.h.pushed);
      if step.WorkerStep? {
        CopiesW(s, step.i, t);
        PointersW(s, step.i, t);
      } else if step.CtlStep? {
        CopiesC(s, t);
      } else {
        CopiesX(s, step, t);
      }
    }
  }

  lemma {:induction false} DistinctFits(q: seq<nat>, b: set<nat>)
    requires forall j, k :: 0 <= j < k < |q| ==> q[j] != q[k]
    requires forall t :: t in q ==> t in b
    ensures |q| <= |b|
  {
    if q == [] {
    } else {
      var n := |q| - 1;
      DistinctFits(q[..n], b - {q[n]});
    }
  }

  lemma {:induction false} QueueFits(s: State)
    requires QueueOk(s) && forall t :: t in s.queue ==> t in s.inflight
    ensures |s.queue| <= |s.inflight|
  {
    forall k | 0 <= k < |s.queue| ensures s.queue[k] == |s.h.dequeued| + k {
      assert (s.h.dequeued + s.queue)[|s.h.dequeued| + k] == Range(s.h.pushed)[|s.h.dequeued| + k];
    }
    DistinctFits(s.queue, s.inflight);
  }

  lemma {:induction false} WakeKeptW(s: State, i: nat)
    requires QueueOk(s) && WakeOk(s) && WorkerCanStep(s, i)
    ensures WakeOk(WorkerNext(s, i))
  {
    hide Decide, Count, Is, FoundEmpty;
    var s', w := WorkerNext(s, i), s.workers[i];
    DecideTakes(w, Front(s), s.isDone);
    DecideWake(w, Front(s), s.isDone);
    CountUpdate(s.workers, i, s'.workers[i], Rewoken);
    if SomeAsleep(s') {
      var j: nat :| IsAsleep(s', j);
      if j == i {
        QueueFits(s);
      } else {
        assert IsAsleep(s, j);
      }
    }
  }

  /** A controller step sends nobody to sleep, and puts nobody past a failed pop. */
  lemma {:induction false} SleepersC(s: State)
    requires CtlCanStep(s)
    ensures SomeAsleep(CtlNext(s)) ==>
      SomeAsleep(s) && !s.ctl.Notifying? && Count(CtlNext(s).workers, Rewoken) == Count(s.workers, Rewoken)
  {
    hide Count;
    var s' := CtlNext(s);
    if SomeAsleep(s') {
      var j: nat :| IsAsleep(s', j);
      assert IsAsleep(s, j);
      if s.ctl.Spawning? {
        CountAppend(s.workers, FreshWorker(), Rewoken);
      } else {
        CountSame(s.workers, s'.workers, Rewoken);
      }
    }
  }

  lemma {:induction false} FoundEmptyC(s: State, i: nat)
    requires CtlCanStep(s) && i < |CtlNext(s).workers| && FoundEmpty(CtlNext(s).workers[i].pc)
    ensures i < |s.workers| && FoundEmpty(s.workers[i].pc)
  {
  }

  lemma {:induction false} WakeKeptC(s: State)
    requires WakeOk(s) && CtlCanStep(s)
    ensures WakeOk(CtlNext(s))
  {
    hide Count, CtlNext, FoundEmpty;
    CtlFrame(s);
    SleepersC(s);
    var s' := CtlNext(s);
    forall i | 0 <= i < |s'.workers| && FoundEmpty(s'.workers[i].pc)
      ensures forall t :: t in s'.queue ==> t in s'.inflight
    {
      FoundEmptyC(s, i);
    }
  }

  /** The worker that a step of a pusher or the system wakes, if any. */
  function Wakes(step: Step): (i: Option<nat>) {
    match step
    case Spurious(i) => Some(i)
    case PushNotify(_, wake) => wake
    case _ => None
  }

  lemma {:induction false} ExternalWake(s: State, step: Step)
    requires Enabled(s, step) && External(step)
    ensures var s' := Next(s, step);
      && (Wakes(step).None? ==> s'.workers == s.workers)
      && (Wakes(step).Some? ==>
            IsAsleep(s, Wakes(step).value) && s'.workers == SetPc(s, Wakes(step).value, Woken).workers)
      && (step.Push? ==> s'.inflight == s.inflight + {s.h.pushed})
      && (step.PushNotify? ==>
            step.t in s.inflight && s'.inflight == s.inflight - {step.t} && (step.wake.None? ==> !SomeAsleep(s)))
      && (!step.Push? && !step.PushNotify? ==> s'.inflight == s.inflight)
  {
    hide WorkerNext, CtlNext, SomeAsleep;
  }

  lemma {:induction false} SleepersX(s: State, step: Step)
    requires QueueOk(s) && WakeOk(s) && Enabled(s, step) && External(step) && SomeAsleep(Next(s, step))
    ensures var s' := Next(s, step); |s'.queue| <= |s'.inflight| + Count(s'.workers, Rewoken)
  {
    ExternalWake(s, step);
    ExternalQueue(s, step);
    hide Count, Next, Enabled;
    var s' := Next(s, step);
    var j: nat :| IsAsleep(s', j);
    assert IsAsleep(s, j);
    if Wakes(step).Some? {
      CountUpdate(s.workers, Wakes(step).value, s'.workers[Wakes(step).value], Rewoken);
    }
    if step.PushNotify? {
      assert s.inflight == s'.inflight + {step.t};
    } else if step.Push? {
      assert s.h.pushed !in s.inflight;
    }
  }

  lemma {:induction false} WakeKeptX(s: State, step: Step)
    requires MutexOk(s) && QueueOk(s) && WakeOk(s) && Enabled(s, step) && External(step)
    ensures WakeOk(Next(s, step))
  {
    var s' := Next(s, step);
    if SomeAsleep(s') {
      SleepersX(s, step);
    }
    ExternalFrame(s, step);
    hide Count, CtlNext, WorkerNext, SomeAsleep;
    forall i | 0 <= i < |s'.workers| && FoundEmpty(s'.workers[i].pc)
      ensures forall t :: t in s'.queue ==> t in s'.inflight
    {
      assert s'.workers[i] == s.workers[i];
      assert HoldsMutex(s.workers[i].pc);
    }
  }

  lemma {:induction false} AbortKept(s: State, step: Step)
    requires MutexOk(s) && AbortOk(s) && Enabled(s, step)
    ensures AbortOk(Next(s, step))
  {
    hide Decide, WorkerAbortOk;
    if step.WorkerStep? {
      DecideAbort(s.workers[step.i], Front(s), s.isDone);
    } else if step.CtlStep? {
      AbortKeptC(s);
    } else {
      AbortKeptX(s, step);
    }
  }

  lemma {:induction false} AbortKeptC(s: State)
    requires MutexOk(s) && AbortOk(s) && CtlCanStep(s)
    ensures AbortOk(CtlNext(s))
  {
  }

  lemma {:induction false} AbortKeptX(s: State, step: Step)
    requires AbortOk(s) && Enabled(s, step) && External(step)
    ensures AbortOk(Next(s, step))
  {
    hide CtlNext, WorkerNext;
  }
}
