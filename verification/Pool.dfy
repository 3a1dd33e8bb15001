/** The thread pool as a state machine. One step is one atomic action of the code: an
    operation of the locked queue, an access to one of the atomics, locking or unlocking the
    pool's mutex, or a call of notify. Steps of different threads interleave freely. */
module Pool {
  import opened Basics

  /** A pushed functor, numbered in the order in which the functors entered the queue. */
  type Task = nat

  /** Where a worker is in the loop of set_thread. The states from Locked to WillSleep, and
      Leaving and Unlocking, hold the pool's mutex. */
  datatype Pc =
    | Popping                      // about to pop, with nothing in hand
    | Running(task: Task)          // about to run the functor
    | Ran(task: Task)              // has run it, about to read its stop flag
    | Repop(task: Task)            // read the flag as false; pops before it frees the functor
    | WantLock                     // found the queue empty
    | Locked                       // about to count itself as waiting
    | Check(woken: bool)           // predicate: about to pop; after a wake-up or for the first time
    | ReadDone                     // predicate: popped nothing, about to read isDone
    | ReadFlag                     // predicate: isDone was false, about to read its flag
    | WillSleep                    // predicate was false: about to release the mutex and block
    | Asleep
    | Woken                        // notified, or woken for no reason; has to lock the mutex
    | Leaving(got: Option<Task>)   // predicate was true: about to count itself as not waiting
    | Unlocking(got: Option<Task>)
    | Exited

  /** A thread that was ever created. `signalled` and `starts` are history: whether notify_all
      ran after the flag was set, and how many functors the worker took since then. */
  datatype Worker = Worker(pc: Pc, flag: bool, signalled: bool, starts: nat)

  /** Who can hold the pool's mutex: a worker, the push of a task, or resize/stop. */
  datatype Agent = W(i: nat) | P(t: Task) | C

  datatype After = ThenTruncate(target: nat) | ThenJoin

  /** Progress of resize and stop, which do not overlap. */
  datatype Ctl =
    | Idle
    | Spawning(target: nat)
    | Flagging(next: nat, target: nat)  // the flags of threads[next..] are set
    | StopFlagging(next: nat)           // the flags of threads[..next] are set
    | StopClearing
    | WantNotify(after: After)
    | Notifying(after: After)           // holds the mutex
    | Notified(after: After)            // holds the mutex
    | Truncating(target: nat)
    | Joining(next: nat)
    | FinalClear
    | ClearVectors

  /** What has happened so far; no step depends on it. */
  datatype History = History(
    pushed: nat,                   // tasks 0 .. pushed - 1 have entered the queue
    dequeued: seq<Task>,           // in the order in which they left it
    completed: multiset<Task>,     // run to the end
    handedOut: multiset<Task>,     // returned by pop
    cleared: multiset<Task>,       // deleted by a caller's clear_queue
    dropped: multiset<Task>,       // deleted by stop
    freed: multiset<Task>)         // functors deleted, by whomever

  datatype State = State(
    queue: seq<Task>,
    workers: seq<Worker>,          // every thread ever created, in order of creation
    threads: seq<nat>,             // the vectors `threads` and `flags`, as indices into workers
    isDone: bool,
    isStop: bool,
    nWaiting: int,
    mutex: Option<Agent>,
    inflight: set<Task>,           // pushes between q.push and notify_one
    ctl: Ctl,
    h: History)

  datatype Step =
    | WorkerStep(i: nat)
    | Spurious(i: nat)
    | Push
    | PushLock(t: Task)
    | PushNotify(t: Task, wake: Option<nat>)
    | PushUnlock(t: Task)
    | UserPop
    | UserClear                    // one round of the loop in clear_queue
    | CallResize(n: nat)
    | CallStop(isWait: bool)
    | CtlStep

  function Init(): (s: State) {
    State([], [], [], false, false, 0, None, {}, Idle,
          History(0, [], multiset{}, multiset{}, multiset{}, multiset{}, multiset{}))
  }

  predicate HoldsMutex(pc: Pc) {
    pc.Locked? || pc.Check? || pc.ReadDone? || pc.ReadFlag? || pc.WillSleep? || pc.Leaving? || pc.Unlocking?
  }

  /** The history after the front task left the queue otherwise than to a worker. */
  function Left(s: State): (h: History)
    requires s.queue != []
  {
    s.h.(dequeued := s.h.dequeued + [s.queue[0]], freed := s.h.freed + multiset{s.queue[0]})
  }

  /** Front task deleted by stop. */
  function DropFront(s: State): (s': State)
    requires s.queue != []
  {
    s.(queue := s.queue[1..], h := Left(s).(dropped := s.h.dropped + multiset{s.queue[0]}))
  }

  // ---- workers ----

  function SetPc(s: State, i: nat, pc: Pc): (s': State)
    requires i < |s.workers|
  {
    s.(workers := s.workers[i := s.workers[i].(pc := pc)])
  }

  datatype MutexUse = Keep | Lock | Unlock

  /** One action of a worker: where it goes, whether it takes the front task, what it does to
      the mutex and to nWaiting, which task it has just run, which functor it frees. */
  datatype Act = Act(pc: Pc, takes: bool, use: MutexUse, waiting: int, runs: Option<Task>, frees: Option<Task>)

  function Go(pc: Pc): (a: Act) { Act(pc, false, Keep, 0, None, None) }

  function Front(s: State): (t: Option<Task>) {
    if s.queue == [] then None else Some(s.queue[0])
  }

  predicate WorkerCanStep(s: State, i: nat) {
    && i < |s.workers|
    && var pc := s.workers[i].pc;
       !pc.Asleep? && !pc.Exited? && (pc.WantLock? || pc.Woken? ==> s.mutex.None?)
  }

  /** The worker's next action, by its place in the loop and what it reads there. */
  function Decide(w: Worker, front: Option<Task>, isDone: bool): (a: Act) {
    match w.pc
    case Popping => if front.None? then Go(WantLock) else Go(Running(front.value)).(takes := true)
    case Running(t) => Go(Ran(t)).(runs := Some(t))
    case Ran(t) => if w.flag then Go(Exited).(frees := Some(t)) else Go(Repop(t))
    case Repop(t) =>
      if front.None? then Go(WantLock).(frees := Some(t))
      else Go(Running(front.value)).(takes := true, frees := Some(t))
    case WantLock => Go(Locked).(use := Lock)
    case Locked => Go(Check(false)).(waiting := 1)
    case Check(_) => if front.None? then Go(ReadDone) else Go(Leaving(front)).(takes := true)
    case ReadDone => Go(if isDone then Leaving(None) else ReadFlag)
    case ReadFlag => Go(if w.flag then Leaving(None) else WillSleep)
    case WillSleep => Go(Asleep).(use := Unlock)
    case Woken => Go(Check(true)).(use := Lock)
    case Leaving(got) => Go(Unlocking(got)).(waiting := -1)
    case Unlocking(got) => Go(if got.Some? then Running(got.value) else Exited).(use := Unlock)
    case Asleep => Go(Asleep)
    case Exited => Go(Exited)
  }

  function Bag(t: Option<Task>): (b: multiset<Task>) {
    if t.Some? then multiset{t.value} else multiset{}
  }

  function Acted(w: Worker, a: Act): (w': Worker) {
    w.(pc := a.pc, starts := if a.takes && w.flag then w.starts + 1 else w.starts)
  }

  function Perform(s: State, i: nat, a: Act): (s': State)
    requires i < |s.workers| && (a.takes ==> s.queue != [])
  {
    s.(workers := s.workers[i := Acted(s.workers[i], a)],
       queue := if a.takes then s.queue[1..] else s.queue,
       mutex := match a.use case Keep => s.mutex case Lock => Some(W(i)) case Unlock => None,
       nWaiting := s.nWaiting + a.waiting,
       h := s.h.(dequeued := if a.takes then s.h.dequeued + [s.queue[0]] else s.h.dequeued,
                 completed := s.h.completed + Bag(a.runs),
                 freed := s.h.freed + Bag(a.frees)))
  }

  function WorkerNext(s: State, i: nat): (s': State)
    requires WorkerCanStep(s, i)
  {
    Perform(s, i, Decide(s.workers[i], Front(s), s.isDone))
  }

  // ---- resize and stop ----

  function SetFlag(s: State, i: nat): (s': State)
    requires i < |s.workers|
  {
    s.(workers := s.workers[i := s.workers[i].(flag := true)])
  }

  function NotifiedWorker(w: Worker): (w': Worker) {
    w.(pc := if w.pc.Asleep? then Woken else w.pc, signalled := w.signalled || w.flag)
  }

  function NotifyAll(ws: seq<Worker>): (ws': seq<Worker>)
    ensures |ws'| == |ws|
  {
    seq(|ws|, i requires 0 <= i < |ws| => NotifiedWorker(ws[i]))
  }

  function FreshWorker(): (w: Worker) { Worker(Popping, false, false, 0) }

  predicate CtlCanStep(s: State) {
    match s.ctl
    case Idle => false
    case WantNotify(_) => s.mutex.None?
    case Flagging(next, target) => next > target ==> next <= |s.threads| && s.threads[next - 1] < |s.workers|
    case StopFlagging(next) => next < |s.threads| ==> s.threads[next] < |s.workers|
    case Truncating(target) => target <= |s.threads|
    case Joining(next) =>
      next < |s.threads| ==> s.threads[next] < |s.workers| && s.workers[s.threads[next]].pc.Exited?
    case _ => true
  }

  function CtlNext(s: State): (s': State)
    requires CtlCanStep(s)
  {
    match s.ctl
    case Spawning(target) =>
      if |s.threads| < target
      then s.(workers := s.workers + [FreshWorker()], threads := s.threads + [|s.workers|])
      else s.(ctl := Idle)
    case Flagging(next, target) =>
      if next > target
      then SetFlag(s, s.threads[next - 1]).(ctl := Flagging(next - 1, target))
      else s.(ctl := WantNotify(ThenTruncate(target)))
    case StopFlagging(next) =>
      if next < |s.threads|
      then SetFlag(s, s.threads[next]).(ctl := StopFlagging(next + 1))
      else s.(ctl := StopClearing)
    case StopClearing =>
      if s.queue != [] then DropFront(s) else s.(ctl := WantNotify(ThenJoin))
    case WantNotify(after) => s.(mutex := Some(C), ctl := Notifying(after))
    case Notifying(after) => s.(workers := NotifyAll(s.workers), ctl := Notified(after))
    case Notified(after) =>
      s.(mutex := None, ctl := if after.ThenJoin? then Joining(0) else Truncating(after.target))
    case Truncating(target) => s.(threads := s.threads[..target], ctl := Idle)
    case Joining(next) => s.(ctl := if next < |s.threads| then Joining(next + 1) else FinalClear)
    case FinalClear => if s.queue != [] then DropFront(s) else s.(ctl := ClearVectors)
    case ClearVectors => s.(threads := [], ctl := Idle)
  }

  /** The calls of resize and stop up to the point where they return early or start to work. */
  function Called(s: State, call: Step): (s': State)
    requires s.ctl.Idle? && (call.CallResize? || call.CallStop?)
  {
    if call.CallResize? then
      if s.isStop || s.isDone then s
      else if |s.threads| <= call.n then s.(ctl := Spawning(call.n))
      else s.(ctl := Flagging(|s.threads|, call.n))
    else if !call.isWait then
      if s.isStop then s else s.(isStop := true, ctl := StopFlagging(0))
    else
      if s.isDone || s.isStop then s
      else s.(isDone := true, ctl := WantNotify(ThenJoin))
  }

  // ---- all steps ----

  predicate IsAsleep(s: State, i: nat) {
    i < |s.workers| && s.workers[i].pc.Asleep?
  }

  ghost predicate SomeAsleep(s: State) {
    exists i: nat :: IsAsleep(s, i)
  }

  ghost predicate Enabled(s: State, step: Step) {
    match step
    case WorkerStep(i) => WorkerCanStep(s, i)
    case Spurious(i) => IsAsleep(s, i)
    case Push => true
    case PushLock(t) => t in s.inflight && s.mutex.None?
    case PushNotify(t, wake) =>
      && t in s.inflight && s.mutex == Some(P(t))
      && (if wake.Some? then IsAsleep(s, wake.value) else !SomeAsleep(s))
    case PushUnlock(t) => t !in s.inflight && s.mutex == Some(P(t))
    case UserPop => s.queue != []    // on an empty queue pop and clear_queue change nothing
    case UserClear => s.queue != []
    case CallResize(_) => s.ctl.Idle?
    case CallStop(_) => s.ctl.Idle?
    case CtlStep => CtlCanStep(s)
  }

  ghost function Next(s: State, step: Step): (s': State)
    requires Enabled(s, step)
  {
    match step
    case WorkerStep(i) => WorkerNext(s, i)
    case Spurious(i) => SetPc(s, i, Woken)
    case Push =>
      s.(queue := s.queue + [s.h.pushed], inflight := s.inflight + {s.h.pushed},
         h := s.h.(pushed := s.h.pushed + 1))
    case PushLock(t) => s.(mutex := Some(P(t)))
    case PushNotify(t, wake) =>
      var s' := s.(inflight := s.inflight - {t});
      if wake.Some? then SetPc(s', wake.value, Woken) else s'
    case PushUnlock(t) => s.(mutex := None)
    case UserPop =>
      s.(queue := s.queue[1..], h := Left(s).(handedOut := s.h.handedOut + multiset{s.queue[0]}))
    case UserClear =>
      s.(queue := s.queue[1..], h := Left(s).(cleared := s.h.cleared + multiset{s.queue[0]}))
    case CallResize(_) => Called(s, step)
    case CallStop(_) => Called(s, step)
    case CtlStep => CtlNext(s)
  }

  /** s' can be reached from s by the given steps, in order. */
  ghost predicate Reaches(s: State, steps: seq<Step>, s': State)
    decreases |steps|
  {
    if steps == [] then s == s'
    else Enabled(s, steps[0]) && Reaches(Next(s, steps[0]), steps[1..], s')
  }
}
