/** Sleeping mutexes, wait queues and join as a state machine over any number of tasks, mutexes
    and CPUs. A mutex's owner changes outside the run-queue lock, in steps of its own; a critical
    section of that lock in which nothing else can be observed is one step. */
module TaskSystem {
  import opened Options
  import opened Scheduling

  type Mutex = nat

  /** A mutex's queue, the queue of tasks that join `of`, and the exited-task collector's. */
  datatype Queue = MutexQ(m: Mutex) | ExitQ(of: Task) | GcQ

  /** Where a task is in the code of the mutex, the wait queue and join. */
  datatype Pc =
    | Plain                              // anywhere else
    | LockTry(m: Mutex, nested: bool)    // about to compare-exchange the owner; `nested` if it held the guard at the call
    | WaitEnter(q: Queue)                // in `wait_until`, about to take the run-queue lock
    | WaitTest(q: Queue)                 // holds it, about to evaluate the condition
    | WaitSleep(q: Queue)                // holds it, saw the condition false, about to block
    | Asleep(q: Queue)                   // blocked in the queue
    | UnlockNotify(m: Mutex)             // has cleared the owner, about to notify
    | JoinRead(of: Task)                 // saw the task exited, about to read its exit code
    | JoinDone(of: Task, code: int)      // `join` returns this code
    | Napping                            // in `sleep_until`
    | Panicked(m: Mutex, nested: bool)   // an assertion of the mutex failed; it takes no more steps
    | Dead

  /** `lock` is the holder of the run-queue lock, `guards` says who holds a guard of which mutex,
      `passed` the code each exited task gave to `exit`. The exit of `init` stops the machine. */
  datatype System = System(
    sched: Sched,
    init: Task,
    halted: bool,
    lock: Option<Task>,
    owner: map<Mutex, Task>,
    guards: set<(Mutex, Task)>,
    pc: map<Task, Pc>,
    queues: map<Queue, seq<Task>>,
    exitCode: map<Task, int>,
    passed: map<Task, int>)

  function Waiting(s: System, q: Queue): seq<Task> {
    if q in s.queues then s.queues[q] else []
  }

  predicate Runs(s: System, c: Cpu) {
    c in s.sched.current && s.sched.current[c] in s.pc
  }

  function Me(s: System, c: Cpu): Task
    requires Runs(s, c)
  {
    s.sched.current[c]
  }

  function Goto(s: System, t: Task, pc: Pc): System {
    s.(pc := s.pc[t := pc])
  }

  predicate At(s: System, c: Cpu, pc: Pc) {
    Runs(s, c) && s.pc[Me(s, c)] == pc
  }

  /** The condition that a waiter on this queue tests. */
  predicate Condition(s: System, q: Queue) {
    match q
    case MutexQ(m) => m !in s.owner
    case ExitQ(of) => of in s.sched.state && s.sched.state[of] == Exited
    case GcQ => false
  }

  function AfterWait(q: Queue): Pc {
    match q
    case MutexQ(m) => LockTry(m, false)
    case ExitQ(of) => JoinRead(of)
    case GcQ => Plain
  }

  /** Where a task resumes when it is taken from this queue. */
  function AfterWake(q: Queue): Pc {
    if q == GcQ then Plain else WaitEnter(q)
  }

  // ----- steps; a step that is not enabled changes nothing -----

  datatype Action =
    | LockBegin(c: Cpu, m: Mutex)
    | Cas(c: Cpu, weak: bool)
    | TryLock(c: Cpu, m: Mutex)
    | WaitAcquire(c: Cpu)
    | WaitEval(c: Cpu)
    | WaitBlock(c: Cpu, choice: nat)
    | UnlockSwap(c: Cpu, m: Mutex)
    | UnlockWake(c: Cpu)
    | JoinBegin(c: Cpu, of: Task)
    | JoinLoad(c: Cpu)
    | JoinReturn(c: Cpu)
    | Exit(c: Cpu, code: int, choice: nat)
    | GcWait(c: Cpu, choice: nat)
    | Yield(c: Cpu, choice: nat)
    | Nap(c: Cpu, choice: nat)
    | TimerFire(t: Task)
    | Spawn(t: Task)

  predicate Ordinary(s: System, c: Cpu) {
    At(s, c, Plain) && !IsIdle(s.sched, Me(s, c))
  }

  /** The task on this CPU now owns the mutex and holds its guard. */
  function Own(s: System, c: Cpu, m: Mutex): System
    requires Runs(s, c)
  {
    s.(owner := s.owner[m := Me(s, c)], guards := s.guards + {(m, Me(s, c))})
  }

  /** The compare-exchange of `lock`, which may also fail without a reason. It panics if it finds
      the caller to be the owner. */
  function CasStep(s: System, c: Cpu, weak: bool): System {
    if !Runs(s, c) || !s.pc[Me(s, c)].LockTry? then s
    else
      var m := s.pc[Me(s, c)].m;
      if m in s.owner && s.owner[m] == Me(s, c) then Goto(s, Me(s, c), Panicked(m, s.pc[Me(s, c)].nested))
      else if m in s.owner || weak then Goto(s, Me(s, c), WaitEnter(MutexQ(m)))
      else Own(Goto(s, Me(s, c), Plain), c, m)
  }

  function TryLockStep(s: System, c: Cpu, m: Mutex): System {
    if !At(s, c, Plain) || m in s.owner then s else Own(s, c, m)
  }

  function WaitAcquireStep(s: System, c: Cpu): System {
    if Runs(s, c) && s.pc[Me(s, c)].WaitEnter? && s.lock == None then
      Goto(s, Me(s, c), WaitTest(s.pc[Me(s, c)].q)).(lock := Some(Me(s, c)))
    else s
  }

  function WaitEvalStep(s: System, c: Cpu): System {
    if Runs(s, c) && s.pc[Me(s, c)].WaitTest? then
      var q := s.pc[Me(s, c)].q;
      if Condition(s, q) then Goto(s, Me(s, c), AfterWait(q)).(lock := None)
      else Goto(s, Me(s, c), WaitSleep(q))
    else s
  }

  /** Blocks the task on this CPU in queue `q`. */
  function Sleep(s: System, c: Cpu, q: Queue, choice: nat): System
    requires Runs(s, c) && c in s.sched.idle && Me(s, c) in s.sched.state
  {
    var t := Me(s, c);
    Goto(s, t, Asleep(q)).(queues := s.queues[q := Waiting(s, q) + [t]], sched := Leave(s.sched, c, Blocked, choice))
  }

  function WaitBlockStep(s: System, c: Cpu, choice: nat): System {
    if Runs(s, c) && s.pc[Me(s, c)].WaitSleep? && c in s.sched.idle && Me(s, c) in s.sched.state then
      Sleep(s, c, s.pc[Me(s, c)].q, choice).(lock := None)
    else s
  }

  /** Dropping a guard clears the owner; it panics if that was somebody else. */
  function UnlockSwapStep(s: System, c: Cpu, m: Mutex): System {
    if At(s, c, Plain) && (m, Me(s, c)) in s.guards then
      var t := Me(s, c);
      Goto(s, t, if m in s.owner && s.owner[m] == t then UnlockNotify(m) else Panicked(m, false)).(
        owner := s.owner - {m}, guards := s.guards - {(m, t)})
    else s
  }

  /** Takes the first task from the queue, if there is one, and makes it ready. */
  function NotifyOne(s: System, q: Queue): System {
    var w := Waiting(s, q);
    if w == [] then s
    else Goto(s, w[0], AfterWake(q)).(queues := s.queues[q := w[1..]], sched := Unblock(s.sched, w[0]))
  }

  function NotifyAll(s: System, q: Queue): System
    decreases |Waiting(s, q)|
  {
    if Waiting(s, q) == [] then s else NotifyAll(NotifyOne(s, q), q)
  }

  function UnlockWakeStep(s: System, c: Cpu): System {
    if Runs(s, c) && s.pc[Me(s, c)].UnlockNotify? && s.lock == None then
      NotifyOne(Goto(s, Me(s, c), Plain), MutexQ(s.pc[Me(s, c)].m))
    else s
  }

  /** Waking the joiners and the collector does not involve the exiting task, so it is put
      before the state change that takes the task off its CPU. */
  function ExitStep(s: System, c: Cpu, code: int, choice: nat): System {
    if Ordinary(s, c) && s.lock == None && c in s.sched.idle && Me(s, c) in s.sched.state then
      var t := Me(s, c);
      if t == s.init then s.(halted := true)
      else
        var s1 := NotifyOne(NotifyAll(s, ExitQ(t)), GcQ);
        if c in s1.sched.idle && c in s1.sched.current && s1.sched.current[c] in s1.sched.state then
          Goto(s1, t, Dead).(
            sched := Leave(s1.sched, c, Exited, choice),
            exitCode := s1.exitCode[t := code],
            passed := s1.passed[t := code])
        else s
    else s
  }

  /** A machine that has stopped takes no more steps. */
  function Next(s: System, a: Action): System {
    if s.halted then s else Act(s, a)
  }

  function Act(s: System, a: Action): System {
    match a
    case LockBegin(c, m) =>
      if Ordinary(s, c) then Goto(s, Me(s, c), LockTry(m, (m, Me(s, c)) in s.guards)) else s
    case Cas(c, weak) => CasStep(s, c, weak)
    case TryLock(c, m) => TryLockStep(s, c, m)
    case WaitAcquire(c) => WaitAcquireStep(s, c)
    case WaitEval(c) => WaitEvalStep(s, c)
    case WaitBlock(c, choice) => WaitBlockStep(s, c, choice)
    case UnlockSwap(c, m) => UnlockSwapStep(s, c, m)
    case UnlockWake(c) => UnlockWakeStep(s, c)
    case JoinBegin(c, of) =>
      if Ordinary(s, c) && of in s.pc then Goto(s, Me(s, c), WaitEnter(ExitQ(of))) else s
    case JoinLoad(c) =>
      if Runs(s, c) && s.pc[Me(s, c)].JoinRead? && s.pc[Me(s, c)].of in s.exitCode then
        Goto(s, Me(s, c), JoinDone(s.pc[Me(s, c)].of, s.exitCode[s.pc[Me(s, c)].of]))
      else s
    case JoinReturn(c) =>
      if Runs(s, c) && s.pc[Me(s, c)].JoinDone? then Goto(s, Me(s, c), Plain) else s
    case Exit(c, code, choice) => ExitStep(s, c, code, choice)
    case GcWait(c, choice) =>
      if Ordinary(s, c) && s.lock == None && c in s.sched.idle && Me(s, c) in s.sched.state
      then Sleep(s, c, GcQ, choice) else s
    case Yield(c, choice) =>
      if Runs(s, c) && s.lock == None && c in s.sched.idle && Me(s, c) in s.sched.state
      then s.(sched := Resched(s.sched, c, choice)) else s
    case Nap(c, choice) =>
      if Ordinary(s, c) && s.lock == None && c in s.sched.idle && Me(s, c) in s.sched.state
      then Goto(s, Me(s, c), Napping).(sched := Leave(s.sched, c, Blocked, choice)) else s
    case TimerFire(t) =>
      if t in s.pc && s.pc[t] == Napping && s.lock == None
      then Goto(s, t, Plain).(sched := Unblock(s.sched, t)) else s
    case Spawn(t) =>
      if t !in s.pc && s.lock == None then Goto(s, t, Plain).(sched := AddTask(s.sched, t), exitCode := s.exitCode[t := 0])
      else s
  }

  // ----- invariant -----

  predicate HoldsLock(pc: Pc) {
    pc.WaitTest? || pc.WaitSleep?
  }

  /** A waiter does not hold the guard it waits for, and `lock` was called with the guard held
      exactly if it still is; only that call panics. */
  ghost predicate ContendOk(s: System, t: Task, pc: Pc) {
    match pc
    case LockTry(m, nested) => nested <==> (m, t) in s.guards
    case WaitEnter(MutexQ(m)) => (m, t) !in s.guards
    case WaitTest(MutexQ(m)) => (m, t) !in s.guards
    case WaitSleep(MutexQ(m)) => (m, t) !in s.guards
    case Asleep(MutexQ(m)) => (m, t) !in s.guards
    case Panicked(m, nested) => nested && (m, t) in s.guards
    case _ => true
  }

  /** What a task's position in the code says about it. */
  ghost predicate TaskOk(s: System, t: Task)
    requires t in s.pc && t in s.sched.state
  {
    var pc, st := s.pc[t], s.sched.state[t];
    && (st == Blocked <==> pc.Asleep? || pc.Napping?)
    && (st == Exited <==> pc.Dead?)
    && (HoldsLock(pc) <==> s.lock == Some(t))
    && (HoldsLock(pc) ==> st == Running)
    && (IsIdle(s.sched, t) ==> pc.Plain? || pc.UnlockNotify?)
    && (pc.Asleep? ==> t in Waiting(s, pc.q))
    && ContendOk(s, t, pc)
    && (st == Exited ==> t in s.passed && t in s.exitCode && s.exitCode[t] == s.passed[t])
    && JoinOk(s, pc)
  }

  /** A task that sleeps for an exit waits for a task that has not exited; one that has seen
      the exit has the code that was passed. */
  ghost predicate JoinOk(s: System, pc: Pc) {
    match pc
    case Asleep(ExitQ(of)) => of in s.sched.state && s.sched.state[of] != Exited
    case WaitSleep(ExitQ(of)) => of in s.sched.state && s.sched.state[of] != Exited
    case WaitEnter(ExitQ(of)) => of in s.sched.state
    case WaitTest(ExitQ(of)) => of in s.sched.state
    case JoinRead(of) => of in s.sched.state && s.sched.state[of] == Exited
    case JoinDone(of, code) =>
      of in s.sched.state && s.sched.state[of] == Exited && of in s.passed && code == s.passed[of]
    case _ => true
  }

  ghost predicate QueueOk(s: System, q: Queue) {
    && NoDuplicates(Waiting(s, q))
    && forall t | t in Waiting(s, q) :: t in s.pc && s.pc[t] == Asleep(q)
  }

  /** The run-queue lock is free or held by a task; so is each mutex, by whoever has its guard. */
  ghost predicate HoldersExist(s: System) {
    && (s.lock.Some? ==> s.lock.value in s.pc)
    && (forall m | m in s.owner :: s.owner[m] in s.pc)
    && (forall m: Mutex, t: Task :: (m, t) in s.guards <==> m in s.owner && s.owner[m] == t)
  }

  /** At this point the task will still look at the mutex, or wake somebody who will. */
  predicate Helps(pc: Pc, m: Mutex) {
    pc == UnlockNotify(m) || (pc.LockTry? && pc.m == m) || pc == WaitEnter(MutexQ(m)) || pc == WaitTest(MutexQ(m))
  }

  ghost predicate SomeoneHelps(s: System, m: Mutex) {
    exists t :: t in s.pc && Helps(s.pc[t], m)
  }

  /** Somebody sleeps on the mutex, or has decided to. */
  ghost predicate SomeoneNeeds(s: System, m: Mutex) {
    Waiting(s, MutexQ(m)) != [] || (s.lock.Some? && s.lock.value in s.pc && s.pc[s.lock.value] == WaitSleep(MutexQ(m)))
  }

  /** Nobody sleeps on a free mutex without help on its way. */
  ghost predicate Helped(s: System, m: Mutex) {
    SomeoneNeeds(s, m) ==> m in s.owner || SomeoneHelps(s, m)
  }

  ghost predicate NoLostWakeup(s: System) {
    forall m :: Helped(s, m)
  }

  ghost predicate Core(s: System) {
    && Placed(s.sched) && s.sched.idle.Keys == s.sched.current.Keys && s.pc.Keys == s.sched.state.Keys
    && HoldersExist(s)
    && (forall t | t in s.pc :: TaskOk(s, t))
    && (forall q :: QueueOk(s, q))
  }

  ghost predicate Inv(s: System) {
    Core(s) && NoLostWakeup(s)
  }

  // ----- effect of the scheduling operations on single tasks -----

  /** The states of tasks other than `t` only move between ready and running. */
  ghost predicate SameButReady(s: Sched, s': Sched, t: Task) {
    && s'.state.Keys == s.state.Keys && s'.idle == s.idle && s'.current.Keys == s.current.Keys
    && forall u | u in s.state && u != t ::
         s'.state[u] == s.state[u] || (s.state[u] in {Running, Ready} && s'.state[u] in {Running, Ready})
  }

  lemma ReschedEffect(s: Sched, c: Cpu, choice: nat)
    requires Placed(s) && c in s.current
    ensures var t := s.current[c];
            var s' := Resched(s, c, choice);
            && SameButReady(s, s', t) && s'.state[t] in {Running, Ready}
            && forall u | u in s.state && u != t && s.state[u] == Running :: s'.state[u] == Running
  {
    hide Placed, SwitchNext;
    CurrentPlace(s, c);
    TakeOff(s, c, Ready);
    SwitchEffect(PutPrev(s, c), c, choice);
  }

  lemma SwitchEffect(s: Sched, c: Cpu, choice: nat)
    requires Placed(s) && c in s.idle && c !in s.current
    ensures var s' := SwitchNext(s, c, choice);
            && s'.state.Keys == s.state.Keys && s'.idle == s.idle && s'.current.Keys == s.current.Keys + {c}
            && forall u | u in s.state :: s'.state[u] == s.state[u] || (s.state[u] == Ready && s'.state[u] == Running)
  {
    if s.ready == [] {
      IdleIsReady(s, c);
    } else {
      assert InPlace(s, s.ready[Pick(s.ready, choice)]);
    }
  }

  lemma LeaveEffect(s: Sched, c: Cpu, st: TaskState, choice: nat)
    requires Placed(s) && c in s.current && !IsIdle(s, s.current[c]) && st in {Blocked, Exited}
    ensures var t := s.current[c];
            var s' := Leave(s, c, st, choice);
            && SameButReady(s, s', t) && s'.state[t] == st
            && forall u | u in s.state && u != t && s.state[u] == Running :: s'.state[u] == Running
  {
    hide Placed, SwitchNext;
    CurrentPlace(s, c);
    TakeOff(s, c, st);
    SwitchEffect(PutPrev(SetState(s, s.current[c], st), c), c, choice);
  }

  // ----- steps of one task that leave the scheduler and the queues alone -----

  ghost predicate LockMoves(s: System, s': System, t: Task) {
    || s'.lock == s.lock
    || (s.lock == None && s'.lock == Some(t))
    || (s.lock == Some(t) && s'.lock == None)
  }

  ghost predicate OwnerMoves(s: System, s': System, t: Task, m: Mutex) {
    || (s'.owner == s.owner && s'.guards == s.guards)
    || (m !in s.owner && s'.owner == s.owner[m := t] && s'.guards == s.guards + {(m, t)})
    || (m in s.owner && s.owner[m] == t && s'.owner == s.owner - {m} && s'.guards == s.guards - {(m, t)})
  }

  lemma LocalTasks(s: System, s': System, t: Task, m: Mutex, u: Task)
    requires Core(s) && t in s.pc && t in s.sched.state && s.sched.state[t] == Running && t in s'.pc && u in s.pc && u != t
    requires s' == s.(pc := s.pc[t := s'.pc[t]], lock := s'.lock, owner := s'.owner, guards := s'.guards)
    requires LockMoves(s, s', t) && OwnerMoves(s, s', t, m)
    ensures u in s'.sched.state && TaskOk(s', u)
  {
    hide Placed, QueueOk;
    assert TaskOk(s, t) && TaskOk(s, u);
    SameJoin(s, s', s.pc[u]);
    hide JoinOk;
  }

  lemma LocalStep(s: System, s': System, t: Task, m: Mutex)
    requires Core(s) && t in s.pc && t in s.sched.state && s.sched.state[t] == Running && t in s'.pc
    requires s' == s.(pc := s.pc[t := s'.pc[t]], lock := s'.lock, owner := s'.owner, guards := s'.guards)
    requires LockMoves(s, s', t) && OwnerMoves(s, s', t, m) && TaskOk(s', t)
    ensures Core(s')
  {
    hide Placed, TaskOk, QueueOk, HoldersExist, OwnerMoves, LockMoves;
    NotAsleep(s, t);
    LocalHolders(s, s', t, m);
    forall u | u in s'.pc ensures TaskOk(s', u) {
      if u != t {
        LocalTasks(s, s', t, m, u);
      }
    }
    forall q ensures QueueOk(s', q) {
      assert QueueOk(s, q);
      OtherQueue(s, s', t, q);
    }
  }

  lemma LocalHolders(s: System, s': System, t: Task, m: Mutex)
    requires HoldersExist(s) && t in s.pc && s'.pc.Keys == s.pc.Keys
    requires LockMoves(s, s', t) && OwnerMoves(s, s', t, m)
    ensures HoldersExist(s')
  {
  }

  lemma NotAsleep(s: System, t: Task)
    requires Core(s) && t in s.pc && t in s.sched.state && s.sched.state[t] == Running
    ensures !s.pc[t].Asleep?
  {
    hide Placed, QueueOk;
    assert TaskOk(s, t);
  }

  /** Help survives a step of `t` unless `t` itself stops helping a mutex that is free. */
  lemma HelpKept(s: System, s': System, t: Task)
    requires NoLostWakeup(s) && t in s.pc && s'.pc.Keys == s.pc.Keys && s'.queues == s.queues
    requires forall u | u in s.pc && u != t :: s'.pc[u] == s.pc[u]
    requires s.owner.Keys <= s'.owner.Keys
    requires forall m :: Helps(s.pc[t], m) ==> Helps(s'.pc[t], m) || m in s'.owner
    requires s'.lock == s.lock || s'.lock == None || s'.lock == Some(t)
    requires s'.pc[t].WaitSleep? && s'.pc[t].q.MutexQ? ==>
               s'.pc[t].q.m in s'.owner || (s'.pc[t] == s.pc[t] && s'.lock == s.lock)
    ensures NoLostWakeup(s')
  {
    forall m ensures Helped(s', m) {
      assert Helped(s, m);
      if SomeoneHelps(s, m) {
        var u :| u in s.pc && Helps(s.pc[u], m);
        assert u != t ==> Helps(s'.pc[u], m);
      }
    }
  }

  lemma RunningTask(s: System, c: Cpu)
    requires Inv(s) && Runs(s, c)
    ensures s.pc.Keys == s.sched.state.Keys && c in s.sched.idle && NoLostWakeup(s)
    ensures s.sched.state[Me(s, c)] == Running && TaskOk(s, Me(s, c))
  {
    hide Placed, NoLostWakeup;
    CurrentPlace(s.sched, c);
  }

  /** What the position a running task moves to must meet. */
  ghost predicate MayGo(s: System, t: Task, pc: Pc, lock: Option<Task>) {
    && t in s.pc && t in s.sched.state && s.sched.state[t] == Running && TaskOk(s, t)
    && !pc.Asleep? && !pc.Napping? && !pc.Dead? && (IsIdle(s.sched, t) ==> pc.Plain? || pc.UnlockNotify?)
    && (lock == s.lock || (s.lock == None && lock == Some(t)) || (s.lock == Some(t) && lock == None))
    && (HoldsLock(pc) <==> lock == Some(t))
    && ContendOk(s, t, pc) && JoinOk(s, pc)
    && (pc.WaitSleep? && pc.q.MutexQ? ==> pc.q.m in s.owner)
    && StillHelps(s, s.pc[t], pc)
  }

  /** A task stops helping with a mutex only if that has an owner. */
  ghost predicate StillHelps(s: System, pc: Pc, pc': Pc) {
    forall m :: Helps(pc, m) ==> Helps(pc', m) || m in s.owner
  }

  lemma GoTask(s: System, t: Task, pc: Pc, lock: Option<Task>)
    requires MayGo(s, t, pc, lock)
    ensures TaskOk(Goto(s, t, pc).(lock := lock), t)
  {
    var s' := Goto(s, t, pc).(lock := lock);
    hide TaskOk, StillHelps;
    SameJoin(s, s', pc);
    SameContend(s, s', t, pc);
    hide JoinOk, ContendOk;
    assert TaskOk(s', t) by { TaskOkParts(s', t); }
  }

  lemma TaskOkParts(s: System, t: Task)
    requires t in s.pc && t in s.sched.state
    requires s.sched.state[t] == Running && !s.pc[t].Asleep? && !s.pc[t].Napping? && !s.pc[t].Dead?
    requires HoldsLock(s.pc[t]) <==> s.lock == Some(t)
    requires IsIdle(s.sched, t) ==> s.pc[t].Plain? || s.pc[t].UnlockNotify?
    requires ContendOk(s, t, s.pc[t]) && JoinOk(s, s.pc[t])
    ensures TaskOk(s, t)
  {
  }

  lemma GoHelp(s: System, t: Task, pc: Pc, lock: Option<Task>)
    requires NoLostWakeup(s) && MayGo(s, t, pc, lock)
    ensures NoLostWakeup(Goto(s, t, pc).(lock := lock))
  {
    hide ContendOk, JoinOk, TaskOk, NoLostWakeup, Helps;
    HelpKept(s, Goto(s, t, pc).(lock := lock), t);
  }

  /** A running task moves on, and may take or release the run-queue lock. */
  lemma GoKeeps(s: System, t: Task, pc: Pc, lock: Option<Task>)
    requires Inv(s) && MayGo(s, t, pc, lock)
    ensures Inv(Goto(s, t, pc).(lock := lock))
  {
    hide Core, NoLostWakeup, TaskOk, ContendOk, JoinOk, StillHelps, Helps;
    GoHelp(s, t, pc, lock);
    GoTask(s, t, pc, lock);
    LocalStep(s, Goto(s, t, pc).(lock := lock), t, 0);
  }

  lemma LockBeginKeeps(s: System, c: Cpu, m: Mutex)
    requires Inv(s)
    ensures Inv(Act(s, LockBegin(c, m)))
  {
    hide Inv;
    if Ordinary(s, c) {
      RunningTask(s, c);
      GoKeeps(s, Me(s, c), LockTry(m, (m, Me(s, c)) in s.guards), s.lock);
    }
  }

  lemma CasKeeps(s: System, c: Cpu, weak: bool)
    requires Inv(s)
    ensures Inv(CasStep(s, c, weak))
  {
    hide Inv;
    if Runs(s, c) && s.pc[Me(s, c)].LockTry? {
      var t, m := Me(s, c), s.pc[Me(s, c)].m;
      RunningTask(s, c);
      GuardOf(s, m, t);
      if m in s.owner && s.owner[m] == t {
        GoKeeps(s, t, Panicked(m, s.pc[t].nested), s.lock);
      } else if m in s.owner || weak {
        GoKeeps(s, t, WaitEnter(MutexQ(m)), s.lock);
      } else {
        assert s.pc[t] == LockTry(m, false);
        OwnKeeps(s, c, m);
      }
    }
  }

  /** Taking a free mutex, in `lock` or `try_lock`. */
  lemma OwnKeeps(s: System, c: Cpu, m: Mutex)
    requires Inv(s) && Runs(s, c) && m !in s.owner && (s.pc[Me(s, c)] == Plain || s.pc[Me(s, c)] == LockTry(m, false))
    ensures Inv(Own(Goto(s, Me(s, c), Plain), c, m))
  {
    hide Core, NoLostWakeup;
    var t, s' := Me(s, c), Own(Goto(s, Me(s, c), Plain), c, m);
    RunningTask(s, c);
    OwnHelp(s, s', t, m);
    LocalStep(s, s', t, m);
  }

  lemma OwnHelp(s: System, s': System, t: Task, m: Mutex)
    requires NoLostWakeup(s) && t in s.pc && (s.pc[t] == Plain || s.pc[t] == LockTry(m, false))
    requires s' == Goto(s, t, Plain).(owner := s.owner[m := t], guards := s'.guards)
    ensures NoLostWakeup(s')
  {
    hide NoLostWakeup;
    HelpKept(s, s', t);
  }

  lemma GuardOf(s: System, m: Mutex, t: Task)
    requires Inv(s)
    ensures (m, t) in s.guards <==> m in s.owner && s.owner[m] == t
  {
  }

  lemma CoreOf(s: System)
    ensures Inv(s) <==> Core(s) && NoLostWakeup(s)
  {
  }

  lemma TryLockKeeps(s: System, c: Cpu, m: Mutex)
    requires Inv(s)
    ensures Inv(TryLockStep(s, c, m))
  {
    hide Inv;
    if At(s, c, Plain) && m !in s.owner {
      OwnKeeps(s, c, m);
      assert s.pc[Me(s, c) := Plain] == s.pc;
    }
  }

  lemma WaitAcquireKeeps(s: System, c: Cpu)
    requires Inv(s)
    ensures Inv(WaitAcquireStep(s, c))
  {
    hide Inv;
    if Runs(s, c) && s.pc[Me(s, c)].WaitEnter? && s.lock == None {
      RunningTask(s, c);
      GoKeeps(s, Me(s, c), WaitTest(s.pc[Me(s, c)].q), Some(Me(s, c)));
    }
  }

  lemma WaitEvalKeeps(s: System, c: Cpu)
    requires Inv(s)
    ensures Inv(WaitEvalStep(s, c))
  {
    hide Inv;
    if Runs(s, c) && s.pc[Me(s, c)].WaitTest? {
      var t, q := Me(s, c), s.pc[Me(s, c)].q;
      RunningTask(s, c);
      if Condition(s, q) {
        GoKeeps(s, t, AfterWait(q), None);
      } else {
        GoKeeps(s, t, WaitSleep(q), s.lock);
      }
    }
  }

  lemma UnlockSwapKeeps(s: System, c: Cpu, m: Mutex)
    requires Inv(s)
    ensures Inv(UnlockSwapStep(s, c, m))
  {
    hide Inv, Core, NoLostWakeup;
    if At(s, c, Plain) && (m, Me(s, c)) in s.guards {
      var s' := UnlockSwapStep(s, c, m);
      var t := Me(s, c);
      RunningTask(s, c);
      GuardOf(s, m, t);
      CoreOf(s);
      CoreOf(s');
      UnlockHelps(s, s', t, m);
      LocalStep(s, s', t, m);
    }
  }

  lemma UnlockHelps(s: System, s': System, t: Task, m: Mutex)
    requires NoLostWakeup(s) && t in s.pc && s.pc[t] == Plain && s' == Goto(s, t, UnlockNotify(m)).(owner := s'.owner, guards := s'.guards)
    requires s'.owner == s.owner - {m}
    ensures NoLostWakeup(s')
  {
    forall n ensures Helped(s', n) {
      assert Helped(s, n);
      if n == m {
        assert Helps(s'.pc[t], m);
      } else if SomeoneHelps(s, n) {
        var u :| u in s.pc && Helps(s.pc[u], n);
        assert Helps(s'.pc[u], n);
      }
    }
  }

  lemma JoinKeeps(s: System, c: Cpu, of: Task)
    requires Inv(s)
    ensures Inv(Act(s, JoinBegin(c, of))) && Inv(Act(s, JoinLoad(c))) && Inv(Act(s, JoinReturn(c)))
  {
    hide Core, NoLostWakeup;
    if Runs(s, c) {
      RunningTask(s, c);
      var t := Me(s, c);
      if Ordinary(s, c) && of in s.pc {
        JoinStep(s, t, WaitEnter(ExitQ(of)));
      }
      if s.pc[t].JoinRead? && s.pc[t].of in s.exitCode {
        AllTasksOk(s, s.pc[t].of);
        JoinStep(s, t, JoinDone(s.pc[t].of, s.exitCode[s.pc[t].of]));
      }
      if s.pc[t].JoinDone? {
        JoinStep(s, t, Plain);
      }
    }
  }

  lemma JoinStep(s: System, t: Task, pc: Pc)
    requires Inv(s) && t in s.pc && t in s.sched.state && s.sched.state[t] == Running
    requires (forall m :: !Helps(s.pc[t], m)) && !HoldsLock(s.pc[t])
    requires pc.Plain? || (!IsIdle(s.sched, t) && (pc.JoinDone? || (pc.WaitEnter? && pc.q.ExitQ?)))
    requires JoinOk(s, pc)
    ensures Inv(Goto(s, t, pc))
  {
    hide Core, NoLostWakeup;
    AllTasksOk(s, t);
    HelpKept(s, Goto(s, t, pc), t);
    LocalStep(s, Goto(s, t, pc), t, 0);
  }

  lemma AllTasksOk(s: System, t: Task)
    requires Inv(s) && (t in s.pc || t in s.sched.state)
    ensures t in s.pc && t in s.sched.state && TaskOk(s, t) && NoLostWakeup(s)
  {
  }

  // ----- steps that change the scheduler or a queue -----

  /** The scheduler moved tasks between ready and running; nothing else changed. */
  lemma SchedStep(s: System, sched: Sched)
    requires Inv(s) && Placed(sched) && sched.idle == s.sched.idle && sched.current.Keys == s.sched.current.Keys
    requires sched.state.Keys == s.sched.state.Keys
    requires forall u | u in s.sched.state ::
               || sched.state[u] == s.sched.state[u]
               || (s.sched.state[u] in {Running, Ready} && sched.state[u] in {Running, Ready} && s.lock != Some(u))
    ensures Inv(s.(sched := sched))
  {
    hide Placed, NoDuplicates;
    var s' := s.(sched := sched);
    forall u | u in s'.pc ensures TaskOk(s', u) {
      assert TaskOk(s, u);
      SameJoin(s, s', s.pc[u]);
    }
    forall q ensures QueueOk(s', q) {
      assert QueueOk(s, q);
    }
    SameHelp(s, s');
  }

  lemma SameHelp(s: System, s': System)
    requires NoLostWakeup(s) && s'.pc == s.pc && s'.queues == s.queues && s'.lock == s.lock && s'.owner == s.owner
    ensures NoLostWakeup(s')
  {
    forall m ensures Helped(s', m) {
      assert Helped(s, m);
      assert SomeoneHelps(s, m) ==> SomeoneHelps(s', m);
    }
  }

  /** `JoinOk` depends only on which tasks have exited, and with which code. */
  lemma SameJoin(s: System, s': System, pc: Pc)
    requires JoinOk(s, pc) && s'.sched.state.Keys == s.sched.state.Keys && s'.passed == s.passed
    requires forall u | u in s.sched.state :: (s'.sched.state[u] == Exited) == (s.sched.state[u] == Exited)
    ensures JoinOk(s', pc)
  {
  }

  lemma YieldKeeps(s: System, c: Cpu, choice: nat)
    requires Inv(s)
    ensures Inv(Act(s, Yield(c, choice)))
  {
    hide Core, NoLostWakeup, Resched;
    if Runs(s, c) && s.lock == None {
      RunningTask(s, c);
      PlacedOf(s);
      ReschedPlaced(s.sched, c, choice);
      ReschedEffect(s.sched, c, choice);
      SchedStep(s, Resched(s.sched, c, choice));
    }
  }

  lemma PlacedOf(s: System)
    requires Inv(s)
    ensures Placed(s.sched) && s.sched.idle.Keys == s.sched.current.Keys && s.pc.Keys == s.sched.state.Keys
  {
  }

  /** A running task that does not hold the lock, or releases it, goes to sleep. */
  ghost predicate FallsAsleep(s: System, s': System, t: Task, pc: Pc) {
    && s'.pc == s.pc[t := pc] && s'.owner == s.owner && s'.guards == s.guards
    && s'.exitCode == s.exitCode && s'.passed == s.passed && s'.lock == None
    && Placed(s'.sched) && s'.sched.idle.Keys == s'.sched.current.Keys
    && SameButReady(s.sched, s'.sched, t) && t in s'.sched.state && s'.sched.state[t] == Blocked
    && match pc
       case Asleep(q) => s'.queues == s.queues[q := Waiting(s, q) + [t]]
       case Napping => s'.queues == s.queues
       case _ => false
  }

  ghost predicate MaySleep(s: System, t: Task, pc: Pc) {
    && t in s.pc && t in s.sched.state && s.sched.state[t] == Running && !IsIdle(s.sched, t)
    && (s.lock == None || s.lock == Some(t)) && JoinOk(s, pc) && !s.pc[t].Asleep?
    && (forall m :: !Helps(s.pc[t], m)) && (pc.Asleep? && pc.q.MutexQ? ==> s.pc[t] == WaitSleep(pc.q))
  }

  lemma SleepTasks(s: System, s': System, t: Task, pc: Pc, u: Task)
    requires MaySleep(s, t, pc) && FallsAsleep(s, s', t, pc)
    requires u in s.pc && u in s.sched.state && TaskOk(s, u) && TaskOk(s, t)
    ensures u in s'.pc && u in s'.sched.state && TaskOk(s', u)
  {
    hide Placed, JoinOk;
    SameJoin(s, s', s.pc[u]);
    SameJoin(s, s', pc);
  }

  lemma SleepQueues(s: System, s': System, t: Task, pc: Pc, q: Queue)
    requires MaySleep(s, t, pc) && FallsAsleep(s, s', t, pc) && QueueOk(s, q)
    ensures QueueOk(s', q)
  {
    hide Placed, JoinOk, SameButReady;
  }

  lemma SleepHelp(s: System, s': System, t: Task, pc: Pc)
    requires MaySleep(s, t, pc) && FallsAsleep(s, s', t, pc) && NoLostWakeup(s) && TaskOk(s, t)
    ensures NoLostWakeup(s')
  {
    hide Placed, JoinOk, SameButReady;
    forall m ensures Helped(s', m) {
      assert Helped(s, m);
      if SomeoneHelps(s, m) {
        var u :| u in s.pc && Helps(s.pc[u], m);
        assert Helps(s'.pc[u], m);
      }
    }
  }

  lemma SleepStep(s: System, s': System, t: Task, pc: Pc)
    requires Inv(s) && MaySleep(s, t, pc) && FallsAsleep(s, s', t, pc)
    ensures Inv(s')
  {
    hide Placed, TaskOk, QueueOk, NoLostWakeup;
    forall u | u in s'.pc ensures u in s'.sched.state && TaskOk(s', u) {
      SleepTasks(s, s', t, pc, u);
    }
    forall q ensures QueueOk(s', q) {
      SleepQueues(s, s', t, pc, q);
    }
    SleepHelp(s, s', t, pc);
  }

  lemma LeaveBlocked(s: System, c: Cpu, choice: nat)
    requires Inv(s) && Runs(s, c) && !IsIdle(s.sched, Me(s, c))
    ensures var s' := Leave(s.sched, c, Blocked, choice);
            && Placed(s') && s'.idle.Keys == s'.current.Keys
            && SameButReady(s.sched, s', Me(s, c)) && s'.state[Me(s, c)] == Blocked
  {
    PlacedOf(s);
    LeavePlaced(s.sched, c, Blocked, choice);
    LeaveEffect(s.sched, c, Blocked, choice);
  }

  lemma WaitBlockKeeps(s: System, c: Cpu, choice: nat)
    requires Inv(s)
    ensures Inv(WaitBlockStep(s, c, choice))
  {
    hide Core, Leave, Placed, SameButReady, NoLostWakeup;
    if Runs(s, c) && s.pc[Me(s, c)].WaitSleep? {
      var t := Me(s, c);
      RunningTask(s, c);
      LeaveBlocked(s, c, choice);
      SleepStep(s, WaitBlockStep(s, c, choice), t, Asleep(s.pc[t].q));
    }
  }

  lemma GcWaitKeeps(s: System, c: Cpu, choice: nat)
    requires Inv(s)
    ensures Inv(Act(s, GcWait(c, choice)))
  {
    hide Core, Leave, Placed, SameButReady, NoLostWakeup;
    if Ordinary(s, c) && s.lock == None {
      RunningTask(s, c);
      LeaveBlocked(s, c, choice);
      SleepStep(s, Act(s, GcWait(c, choice)), Me(s, c), Asleep(GcQ));
    }
  }

  lemma NapKeeps(s: System, c: Cpu, choice: nat)
    requires Inv(s)
    ensures Inv(Act(s, Nap(c, choice)))
  {
    hide Core, Leave, Placed, SameButReady, NoLostWakeup;
    if Ordinary(s, c) && s.lock == None {
      RunningTask(s, c);
      LeaveBlocked(s, c, choice);
      SleepStep(s, Act(s, Nap(c, choice)), Me(s, c), Napping);
    }
  }

  // ----- notifying -----

  lemma NotifyTasks(s: System, q: Queue, u: Task)
    requires Core(s) && s.lock == None && Waiting(s, q) != [] && u in s.pc
    ensures var s' := NotifyOne(s, q); u in s'.pc && u in s'.sched.state && TaskOk(s', u)
  {
    hide Core, QueueOk, JoinOk;
    var w := Waiting(s, q)[0];
    InCore(s, q, w);
    InCore(s, q, u);
    FirstAsleep(s, q);
    SameJoin(s, NotifyOne(s, q), s.pc[u]);
    if u == w {
      JoinAwake(NotifyOne(s, q), q);
    }
  }

  lemma InCore(s: System, q: Queue, t: Task)
    requires Core(s) && (t in s.pc || t in Waiting(s, q))
    ensures QueueOk(s, q) && t in s.pc && t in s.sched.state && TaskOk(s, t)
  {
    hide Placed, TaskOk;
    assert QueueOk(s, q);
  }

  /** A joiner that is woken still waits for a task that exists. */
  lemma JoinAwake(s: System, q: Queue)
    requires JoinOk(s, Asleep(q))
    ensures JoinOk(s, AfterWake(q))
  {
  }

  lemma NotifyQueues(s: System, q: Queue, r: Queue)
    requires QueueOk(s, q) && QueueOk(s, r) && Waiting(s, q) != []
    ensures QueueOk(NotifyOne(s, q), r)
  {
  }

  /** Notifying keeps everything in order; afterwards a waiter on the mutex has help. */
  lemma NotifyOneCore(s: System, q: Queue)
    requires Core(s) && s.lock == None
    requires forall m :: Helped(s, m) || q == MutexQ(m)
    ensures Core(NotifyOne(s, q)) && NoLostWakeup(NotifyOne(s, q))
  {
    hide TaskOk, QueueOk, Placed;
    var s', w := NotifyOne(s, q), Waiting(s, q);
    if w != [] {
      assert QueueOk(s, q);
      FirstAsleep(s, q);
      UnblockPlaced(s.sched, w[0]);
      forall u | u in s'.pc ensures u in s'.sched.state && TaskOk(s', u) {
        NotifyTasks(s, q, u);
      }
      forall r ensures QueueOk(s', r) {
        assert QueueOk(s, r);
        NotifyQueues(s, q, r);
      }
      NotifyHelp(s, q);
    }
  }

  lemma NotifyKeeps(s: System, q: Queue)
    requires Inv(s) && s.lock == None
    ensures Inv(NotifyOne(s, q))
  {
    hide Core, NotifyOne, Helped;
    NotifyOneCore(s, q);
  }

  lemma FirstAsleep(s: System, q: Queue)
    requires QueueOk(s, q) && Waiting(s, q) != []
    ensures Waiting(s, q)[0] in s.pc && s.pc[Waiting(s, q)[0]] == Asleep(q)
  {
  }

  lemma NotifyHelp(s: System, q: Queue)
    requires Core(s) && s.lock == None && Waiting(s, q) != []
    requires forall m :: Helped(s, m) || q == MutexQ(m)
    ensures NoLostWakeup(NotifyOne(s, q))
  {
    hide Placed, TaskOk;
    var s', w := NotifyOne(s, q), Waiting(s, q);
    assert QueueOk(s, q);
    FirstAsleep(s, q);
    forall m ensures Helped(s', m) {
      if q == MutexQ(m) {
        assert Helps(s'.pc[w[0]], m);
      } else if SomeoneHelps(s, m) {
        var u :| u in s.pc && Helps(s.pc[u], m);
        assert Helps(s'.pc[u], m);
      }
    }
  }

  lemma UnlockWakeKeeps(s: System, c: Cpu)
    requires Inv(s)
    ensures Inv(UnlockWakeStep(s, c))
  {
    hide Core, NoLostWakeup, NotifyOne;
    if Runs(s, c) && s.pc[Me(s, c)].UnlockNotify? && s.lock == None {
      var t, m := Me(s, c), s.pc[Me(s, c)].m;
      var s1 := Goto(s, t, Plain);
      RunningTask(s, c);
      LocalStep(s, s1, t, m);
      OthersHelped(s, s1, t, m);
      NotifyOneCore(s1, MutexQ(m));
    }
  }

  lemma OthersHelped(s: System, s1: System, t: Task, m: Mutex)
    requires NoLostWakeup(s) && t in s.pc && s.pc[t] == UnlockNotify(m) && s1 == Goto(s, t, Plain)
    ensures forall n :: Helped(s1, n) || MutexQ(m) == MutexQ(n)
  {
    forall n | n != m ensures Helped(s1, n) {
      assert Helped(s, n);
      if SomeoneHelps(s, n) {
        var u :| u in s.pc && Helps(s.pc[u], n);
        assert Helps(s1.pc[u], n);
      }
    }
  }

  /** Notifying every waiter empties the queue and leaves running tasks where they are. */
  lemma NotifyAllEffect(s: System, q: Queue, t: Task)
    requires Inv(s) && s.lock == None && t in s.pc && t in s.sched.state && s.sched.state[t] == Running
    ensures var s' := NotifyAll(s, q);
            && Inv(s') && s'.lock == None && Waiting(s', q) == []
            && s'.sched.current == s.sched.current && s'.sched.idle == s.sched.idle
            && t in s'.pc && s'.pc[t] == s.pc[t] && t in s'.sched.state && s'.sched.state[t] == Running
    decreases |Waiting(s, q)|
  {
    hide Core, NoLostWakeup;
    if Waiting(s, q) != [] {
      NotifyKeeps(s, q);
      NotOnQueue(s, q, t);
      NotifyAllEffect(NotifyOne(s, q), q, t);
    }
  }

  lemma NotOnQueue(s: System, q: Queue, t: Task)
    requires Core(s) && t in s.pc && t in s.sched.state && s.sched.state[t] == Running
    ensures t !in Waiting(s, q)
  {
    hide Placed;
    assert QueueOk(s, q);
    assert TaskOk(s, t);
  }

  // ----- exiting -----

  /** The task on this CPU dies with its code, and nobody waits for it any more. */
  ghost predicate Dies(s: System, s': System, t: Task, code: int) {
    && s' == Goto(s, t, Dead).(sched := s'.sched, exitCode := s.exitCode[t := code], passed := s.passed[t := code])
    && Placed(s'.sched) && s'.sched.idle.Keys == s'.sched.current.Keys
    && SameButReady(s.sched, s'.sched, t) && t in s'.sched.state && s'.sched.state[t] == Exited
  }

  ghost predicate MayDie(s: System, t: Task) {
    && Core(s) && t in s.pc && t in s.sched.state && s.sched.state[t] == Running && !IsIdle(s.sched, t)
    && s.lock == None && s.pc[t] == Plain && Waiting(s, ExitQ(t)) == []
  }

  lemma DeathTasks(s: System, s': System, t: Task, code: int, u: Task)
    requires MayDie(s, t) && Dies(s, s', t, code) && u in s.pc
    ensures u in s'.pc && u in s'.sched.state && TaskOk(s', u)
  {
    hide Placed, QueueOk, JoinOk, ContendOk;
    assert TaskOk(s, t);
    assert TaskOk(s, u);
    if u == t {
      DeadJoins(s', t);
    } else {
      DeathJoins(s, s', t, code, s.pc[u]);
      SameContend(s, s', u, s.pc[u]);
    }
  }

  lemma DeadJoins(s: System, t: Task)
    ensures JoinOk(s, Dead) && ContendOk(s, t, Dead)
  {
  }

  /** Joiners of others do not notice; those of the dead task have left its queue. */
  lemma DeathJoins(s: System, s': System, t: Task, code: int, pc: Pc)
    requires JoinOk(s, pc) && Dies(s, s', t, code) && t in s.sched.state && s.sched.state[t] == Running
    requires pc != Asleep(ExitQ(t)) && pc != WaitSleep(ExitQ(t))
    ensures JoinOk(s', pc)
  {
    hide Placed;
  }

  lemma DeathStep(s: System, s': System, t: Task, code: int)
    requires MayDie(s, t) && Dies(s, s', t, code) && NoLostWakeup(s)
    ensures Inv(s')
  {
    hide Placed, TaskOk;
    forall u | u in s'.pc ensures u in s'.sched.state && TaskOk(s', u) {
      DeathTasks(s, s', t, code, u);
    }
    forall q ensures QueueOk(s', q) {
      assert QueueOk(s, q);
    }
    forall m ensures Helped(s', m) {
      assert Helped(s, m);
      if SomeoneHelps(s, m) {
        var u :| u in s.pc && Helps(s.pc[u], m);
        assert Helps(s'.pc[u], m);
      }
    }
  }

  lemma ExitKeeps(s: System, c: Cpu, code: int, choice: nat)
    requires Inv(s)
    ensures Inv(ExitStep(s, c, code, choice))
  {
    hide Core, NoLostWakeup, NotifyOne, NotifyAll, Leave, Placed, SameButReady;
    if Ordinary(s, c) && s.lock == None && Me(s, c) == s.init {
      StopKeeps(s);
    } else if Ordinary(s, c) && s.lock == None {
      var t := Me(s, c);
      RunningTask(s, c);
      NotifyAllEffect(s, ExitQ(t), t);
      var s1 := NotifyAll(s, ExitQ(t));
      NotifyKeeps(s1, GcQ);
      NotOnQueue(s1, GcQ, t);
      var s2 := NotifyOne(s1, GcQ);
      GcFrame(s1, t);
      PlacedOf(s2);
      LeavePlaced(s2.sched, c, Exited, choice);
      LeaveEffect(s2.sched, c, Exited, choice);
      SameKeys(s2.sched, Leave(s2.sched, c, Exited, choice), t);
      DeathStep(s2, ExitStep(s, c, code, choice), t, code);
    }
  }

  lemma StopKeeps(s: System)
    requires Inv(s)
    ensures Inv(s.(halted := true))
  {
    hide Placed;
    var s' := s.(halted := true);
    forall u | u in s'.pc ensures TaskOk(s', u) {
      assert TaskOk(s, u);
    }
    forall q ensures QueueOk(s', q) {
      assert QueueOk(s, q);
    }
    SameHelp(s, s');
  }

  lemma GcFrame(s: System, t: Task)
    requires t in s.pc && t in s.sched.state && t !in Waiting(s, GcQ)
    ensures var s' := NotifyOne(s, GcQ);
            && s'.lock == s.lock && Waiting(s', ExitQ(t)) == Waiting(s, ExitQ(t))
            && s'.sched.current == s.sched.current && s'.sched.idle == s.sched.idle
            && t in s'.pc && s'.pc[t] == s.pc[t] && t in s'.sched.state && s'.sched.state[t] == s.sched.state[t]
  {
  }

  lemma SameKeys(s: Sched, s': Sched, t: Task)
    requires SameButReady(s, s', t)
    ensures s'.state.Keys == s.state.Keys && s'.idle == s.idle && s'.current.Keys == s.current.Keys
  {
  }

  lemma TimerFireKeeps(s: System, t: Task)
    requires Inv(s)
    ensures Inv(Act(s, TimerFire(t)))
  {
    hide Placed, QueueOk, TaskOk, NoLostWakeup;
    if t in s.pc && s.pc[t] == Napping && s.lock == None {
      var s' := Act(s, TimerFire(t));
      UnblockPlaced(s.sched, t);
      forall u | u in s'.pc ensures u in s'.sched.state && TaskOk(s', u) {
        TimerTasks(s, t, u);
      }
      forall q ensures QueueOk(s', q) {
        assert QueueOk(s, q);
        OtherQueue(s, s', t, q);
      }
      HelpKept(s, s', t);
    }
  }

  lemma TimerTasks(s: System, t: Task, u: Task)
    requires Core(s) && t in s.pc && s.pc[t] == Napping && s.lock == None && u in s.pc
    ensures var s' := Act(s, TimerFire(t)); u in s'.pc && u in s'.sched.state && TaskOk(s', u)
  {
    hide Placed, QueueOk;
    assert TaskOk(s, t);
    assert TaskOk(s, u);
    SameJoin(s, Act(s, TimerFire(t)), s.pc[u]);
  }

  lemma OtherQueue(s: System, s': System, t: Task, q: Queue)
    requires QueueOk(s, q) && s'.queues == s.queues && (t !in s.pc || !s.pc[t].Asleep?)
    requires forall u | u in s.pc && u != t :: u in s'.pc && s'.pc[u] == s.pc[u]
    ensures QueueOk(s', q)
  {
  }

  lemma SpawnKeeps(s: System, t: Task)
    requires Inv(s)
    ensures Inv(Act(s, Spawn(t)))
  {
    hide Placed, QueueOk, TaskOk;
    if t !in s.pc && s.lock == None {
      var s' := Act(s, Spawn(t));
      AddTaskPlaced(s.sched, t);
      forall u | u in s'.pc ensures u in s'.sched.state && TaskOk(s', u) {
        SpawnTasks(s, t, u);
      }
      forall q ensures QueueOk(s', q) {
        assert QueueOk(s, q);
        OtherQueue(s, s', t, q);
      }
      forall m ensures Helped(s', m) {
        assert Helped(s, m);
        if SomeoneHelps(s, m) {
          var u :| u in s.pc && Helps(s.pc[u], m);
          assert Helps(s'.pc[u], m);
        }
      }
    }
  }

  lemma SpawnTasks(s: System, t: Task, u: Task)
    requires Core(s) && t !in s.pc && s.lock == None && (u == t || u in s.pc)
    ensures var s' := Act(s, Spawn(t)); u in s'.pc && u in s'.sched.state && TaskOk(s', u)
  {
    hide Placed, QueueOk, JoinOk, ContendOk;
    PlacedOfCore(s);
    IdleExists(s.sched);
    if u != t {
      assert TaskOk(s, u);
      JoinGrows(s, Act(s, Spawn(t)), t, s.pc[u]);
      SameContend(s, Act(s, Spawn(t)), u, s.pc[u]);
    } else {
      PlainJoins(Act(s, Spawn(t)));
    }
  }

  lemma PlacedOfCore(s: System)
    requires Core(s)
    ensures Placed(s.sched) && s.pc.Keys == s.sched.state.Keys
  {
  }

  lemma PlainJoins(s: System)
    ensures JoinOk(s, Plain) && forall t :: ContendOk(s, t, Plain)
  {
  }

  lemma SameContend(s: System, s': System, t: Task, pc: Pc)
    requires ContendOk(s, t, pc) && s'.guards == s.guards
    ensures ContendOk(s', t, pc)
  {
  }

  /** A new task changes nothing for those who join others. */
  lemma JoinGrows(s: System, s': System, t: Task, pc: Pc)
    requires JoinOk(s, pc) && s'.passed == s.passed && t !in s.sched.state
    requires s'.sched.state == s.sched.state[t := Ready]
    ensures JoinOk(s', pc)
  {
  }

  lemma IdleExists(s: Sched)
    requires Placed(s)
    ensures forall t | IsIdle(s, t) :: t in s.state
  {
  }

  // ----- whole runs -----

  lemma StepKeeps(s: System, a: Action)
    requires Inv(s)
    ensures Inv(Next(s, a))
  {
    hide Inv;
    if s.halted {
      return;
    }
    match a
    case LockBegin(c, m) => LockBeginKeeps(s, c, m);
    case Cas(c, weak) => CasKeeps(s, c, weak);
    case TryLock(c, m) => TryLockKeeps(s, c, m);
    case WaitAcquire(c) => WaitAcquireKeeps(s, c);
    case WaitEval(c) => WaitEvalKeeps(s, c);
    case WaitBlock(c, choice) => WaitBlockKeeps(s, c, choice);
    case UnlockSwap(c, m) => UnlockSwapKeeps(s, c, m);
    case UnlockWake(c) => UnlockWakeKeeps(s, c);
    case JoinBegin(c, of) => JoinKeeps(s, c, of);
    case JoinLoad(c) => JoinKeeps(s, c, 0);
    case JoinReturn(c) => JoinKeeps(s, c, 0);
    case Exit(c, code, choice) => ExitKeeps(s, c, code, choice);
    case GcWait(c, choice) => GcWaitKeeps(s, c, choice);
    case Yield(c, choice) => YieldKeeps(s, c, choice);
    case Nap(c, choice) => NapKeeps(s, c, choice);
    case TimerFire(t) => TimerFireKeeps(s, t);
    case Spawn(t) => SpawnKeeps(s, t);
  }

  /** Any interleaving: the actions happen one after the other, in any order. */
  function Run(s: System, actions: seq<Action>): System
    decreases |actions|
  {
    if actions == [] then s else Run(Next(s, actions[0]), actions[1..])
  }

  /** Tasks are placed on the CPUs and nothing has happened yet. */
  ghost predicate Initial(s: System) {
    && Placed(s.sched) && s.sched.idle.Keys == s.sched.current.Keys && s.pc.Keys == s.sched.state.Keys
    && (forall t | t in s.sched.state :: s.sched.state[t] in {Running, Ready})
    && (forall t | t in s.pc :: s.pc[t] == Plain)
    && s.lock == None && s.owner == map[] && s.guards == {} && s.queues == map[] && s.passed == map[]
  }

  lemma {:induction false} RunKeeps(s: System, actions: seq<Action>)
    requires Inv(s)
    ensures Inv(Run(s, actions))
    decreases |actions|
  {
    hide Inv, Next;
    if actions != [] {
      StepKeeps(s, actions[0]);
      RunKeeps(Next(s, actions[0]), actions[1..]);
    }
  }

  lemma Reached(s0: System, actions: seq<Action>)
    requires Initial(s0)
    ensures Inv(Run(s0, actions))
  {
    hide Inv;
    InitialInOrder(s0);
    RunKeeps(s0, actions);
  }

  lemma InitialInOrder(s: System)
    requires Initial(s)
    ensures Inv(s)
  {
    hide Placed;
    forall t | t in s.pc ensures TaskOk(s, t) {
    }
    forall q ensures QueueOk(s, q) {
    }
    forall m ensures Helped(s, m) {
    }
  }

  /** In every interleaving each ordinary task is in exactly one place: current on exactly one
      CPU while running, exactly once in the ready queue while ready, in neither otherwise. */
  lemma OnePlace(s0: System, actions: seq<Action>, t: Task)
    requires Initial(s0)
    ensures var s := Run(s0, actions).sched;
            t in s.state && !IsIdle(s, t) ==>
              && (s.state[t] == Running <==> exists c :: c in s.current && s.current[c] == t)
              && (forall c, d | c in s.current && d in s.current && s.current[c] == t == s.current[d] :: c == d)
              && (s.state[t] == Ready <==> exists i :: 0 <= i < |s.ready| && s.ready[i] == t)
              && (forall i, j | 0 <= i < |s.ready| && 0 <= j < |s.ready| && s.ready[i] == t == s.ready[j] :: i == j)
  {
    Reached(s0, actions);
    var s := Run(s0, actions).sched;
    PlacedOf(Run(s0, actions));
    hide Run, Inv, Core;
    if t in s.state && !IsIdle(s, t) {
      assert InPlace(s, t);
    }
  }

  /** At most one task holds a guard of a mutex and the owner field names it. */
  lemma MutualExclusion(s0: System, actions: seq<Action>, m: Mutex, t: Task, u: Task)
    requires Initial(s0)
    ensures var s := Run(s0, actions);
            && ((m, t) in s.guards && (m, u) in s.guards ==> t == u)
            && ((m, t) in s.guards <==> m in s.owner && s.owner[m] == t)
  {
    hide Run, Inv;
    Reached(s0, actions);
    GuardOf(Run(s0, actions), m, t);
    GuardOf(Run(s0, actions), m, u);
  }

  /** `try_lock` takes the mutex exactly if nobody holds a guard of it, and otherwise changes nothing. */
  lemma TryLockExactly(s0: System, actions: seq<Action>, c: Cpu, m: Mutex, n: Mutex, u: Task)
    requires Initial(s0)
    ensures var s := Run(s0, actions); var s' := Next(s, TryLock(c, m));
            At(s, c, Plain) && !s.halted ==>
              && ((forall t: Task :: (m, t) !in s.guards) ==>
                    ((n, u) in s'.guards <==> (n, u) in s.guards || (n == m && u == Me(s, c))))
              && ((exists t: Task :: (m, t) in s.guards) ==> s' == s)
  {
    hide Run, Inv;
    Reached(s0, actions);
    var s := Run(s0, actions);
    if m in s.owner {
      GuardOf(s, m, s.owner[m]);
    } else {
      forall t: Task ensures (m, t) !in s.guards {
        GuardOf(s, m, t);
      }
    }
  }

  /** The two assertions of the mutex: the one in `lock` fails exactly for a caller that had the
      guard of that mutex in its hands, and the one in `force_unlock`, when a guard is dropped, never. */
  lemma PanicsExactly(s0: System, actions: seq<Action>, t: Task, c: Cpu, m: Mutex, weak: bool)
    requires Initial(s0)
    ensures var s := Run(s0, actions); Ordinary(s, c) && !s.halted ==>
              Next(s, LockBegin(c, m)).pc[Me(s, c)] == LockTry(m, (m, Me(s, c)) in s.guards)
    ensures var s := Run(s0, actions);
            && (t in s.pc && s.pc[t].Panicked? ==> s.pc[t].nested)
            && (Runs(s, c) && s.pc[Me(s, c)].LockTry? && !s.halted ==>
                  var s' := Next(s, Cas(c, weak));
                  Me(s, c) in s'.pc && (s'.pc[Me(s, c)].Panicked? <==> s.pc[Me(s, c)].nested))
  {
    hide Run, Inv, NoLostWakeup, JoinOk;
    Reached(s0, actions);
    var s := Run(s0, actions);
    if Ordinary(s, c) && !s.halted {
      LockCall(s, c, m);
    }
    if t in s.pc {
      AllTasksOk(s, t);
    }
    if Runs(s, c) && s.pc[Me(s, c)].LockTry? {
      AllTasksOk(s, Me(s, c));
      GuardOf(s, s.pc[Me(s, c)].m, Me(s, c));
    }
  }

  /** A task that takes a free mutex and calls `lock` again panics, however the second attempt fails. */
  lemma NestedLock(s: System, c: Cpu, m: Mutex, weak: bool)
    requires Ordinary(s, c) && !s.halted && m !in s.owner && (m, Me(s, c)) !in s.guards
    ensures At(Run(s, [LockBegin(c, m), Cas(c, false), LockBegin(c, m), Cas(c, weak)]), c, Panicked(m, true))
  {
    hide ExitStep, WaitBlockStep, WaitEvalStep, WaitAcquireStep, UnlockWakeStep, UnlockSwapStep, TryLockStep, CasStep, Run;
    FourSteps(s, LockBegin(c, m), Cas(c, false), LockBegin(c, m), Cas(c, weak));
    CasOnce(Next(s, LockBegin(c, m)), c, m);
    var s2 := CasStep(Next(s, LockBegin(c, m)), c, false);
    CasAgain(Next(s2, LockBegin(c, m)), c, m, weak);
  }

  lemma CasOnce(s: System, c: Cpu, m: Mutex)
    requires At(s, c, LockTry(m, false)) && m !in s.owner
    ensures var s' := CasStep(s, c, false);
      && At(s', c, Plain) && s'.sched == s.sched && s'.halted == s.halted
      && m in s'.owner && s'.owner[m] == Me(s, c) && (m, Me(s, c)) in s'.guards
  {
  }

  lemma CasAgain(s: System, c: Cpu, m: Mutex, weak: bool)
    requires At(s, c, LockTry(m, true)) && m in s.owner && s.owner[m] == Me(s, c)
    ensures At(CasStep(s, c, weak), c, Panicked(m, true))
  {
  }

  lemma FourSteps(s: System, a1: Action, a2: Action, a3: Action, a4: Action)
    ensures Run(s, [a1, a2, a3, a4]) == Next(Next(Next(Next(s, a1), a2), a3), a4)
  {
    hide Next;
    assert [a1, a2, a3, a4][1..] == [a2, a3, a4] && [a2, a3, a4][1..] == [a3, a4];
    assert Run(s, [a1, a2, a3, a4]) == Run(Next(s, a1), [a2, a3, a4]);
    assert Run(Next(s, a1), [a2, a3, a4]) == Run(Next(Next(s, a1), a2), [a3, a4]);
    TwoSteps(Next(Next(s, a1), a2), a3, a4);
  }

  lemma TwoSteps(s: System, a: Action, b: Action)
    ensures Run(s, [a, b]) == Next(Next(s, a), b)
  {
    hide Next;
    assert [a, b][1..] == [b] && [b][1..] == [];
    assert Run(s, [a, b]) == Run(Next(s, a), [b]);
  }

  /** A call of `lock` notes whether the caller holds the guard. */
  lemma LockCall(s: System, c: Cpu, m: Mutex)
    requires Ordinary(s, c) && !s.halted
    ensures Next(s, LockBegin(c, m)).pc[Me(s, c)] == LockTry(m, (m, Me(s, c)) in s.guards)
  {
  }

  /** No wake-up is lost: while somebody sleeps on a mutex, it is owned, or an unlocker has
      yet to notify, or a contender that is neither blocked nor gone will try again. */
  lemma WaitersHaveHelp(s0: System, actions: seq<Action>, m: Mutex)
    requires Initial(s0)
    ensures var s := Run(s0, actions);
            Waiting(s, MutexQ(m)) != [] ==>
              || m in s.owner
              || exists t :: t in s.pc && t in s.sched.state && Helps(s.pc[t], m) && s.sched.state[t] in {Running, Ready}
  {
    Reached(s0, actions);
    var s := Run(s0, actions);
    hide Run, Placed, QueueOk;
    if Waiting(s, MutexQ(m)) != [] && m !in s.owner {
      assert Helped(s, m);
      var t :| t in s.pc && Helps(s.pc[t], m);
      assert TaskOk(s, t);
    }
  }

  /** `join` returns only after the task has exited, with the code it passed to `exit`, and
      nobody is left asleep in the exit queue of an exited task. */
  lemma JoinSafe(s0: System, actions: seq<Action>, t: Task, of: Task)
    requires Initial(s0)
    ensures var s := Run(s0, actions);
            && (t in s.pc && s.pc[t].JoinDone? ==>
                  var of := s.pc[t].of;
                  of in s.sched.state && s.sched.state[of] == Exited && of in s.passed && s.pc[t].code == s.passed[of])
            && (of in s.sched.state && s.sched.state[of] == Exited ==> Waiting(s, ExitQ(of)) == [])
  {
    Reached(s0, actions);
    var s := Run(s0, actions);
    hide Run, Placed;
    if t in s.pc {
      assert TaskOk(s, t);
    }
    if of in s.sched.state && s.sched.state[of] == Exited && Waiting(s, ExitQ(of)) != [] {
      assert QueueOk(s, ExitQ(of));
      AsleepJoins(s, of);
    }
  }

  lemma AsleepJoins(s: System, of: Task)
    requires Core(s) && Waiting(s, ExitQ(of)) != []
    ensures of in s.sched.state && s.sched.state[of] != Exited
  {
    hide Placed;
    FirstAsleep(s, ExitQ(of));
    assert TaskOk(s, Waiting(s, ExitQ(of))[0]);
  }
}
