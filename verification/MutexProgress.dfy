/** Help arrives: while somebody sleeps on a free mutex, the machine can still get it owned. */
module MutexProgress {
  import opened Options
  import opened Scheduling
  import opened TaskSystem

  /** A step of a call that has begun, the drop of a guard, or a switch between tasks; no task
      begins to contend. */
  predicate Continues(a: Action) {
    a.Cas? || a.WaitAcquire? || a.WaitEval? || a.WaitBlock? || a.UnlockSwap? || a.UnlockWake? || a.Yield?
  }

  ghost predicate Leads(s: System, more: seq<Action>, m: Mutex, w: Task) {
    && (forall i | 0 <= i < |more| :: Continues(more[i]))
    && var s' := Run(s, more); m in s'.owner && s'.owner[m] == w
  }

  /** Some run of such steps ends with `w` as the owner of the mutex. */
  ghost predicate CanOwn(s: System, m: Mutex, w: Task) {
    exists more :: Leads(s, more, m, w)
  }

  /** No idle task was switched away from between clearing a mutex and notifying. An idle task
      comes back only when nothing else is ready. */
  ghost predicate IdleAtRest(s: System) {
    forall t | t in s.pc && t in s.sched.state && IsIdle(s.sched, t) && s.sched.state[t] == Ready :: s.pc[t] == Plain
  }

  lemma OneStep(s: System, a: Action, m: Mutex, w: Task)
    requires Continues(a) && CanOwn(Next(s, a), m, w)
    ensures CanOwn(s, m, w)
  {
    hide Next;
    var more :| Leads(Next(s, a), more, m, w);
    assert ([a] + more)[1..] == more;
    assert Leads(s, [a] + more, m, w);
  }

  // ----- a contender that runs -----

  /** A contender about to compare-exchange takes the mutex. */
  lemma Grab(s: System, c: Cpu, m: Mutex)
    requires !s.halted && m !in s.owner && Runs(s, c) && s.pc[Me(s, c)].LockTry? && s.pc[Me(s, c)].m == m
    ensures CanOwn(s, m, Me(s, c))
  {
    var s1 := Next(s, Cas(c, false));
    assert m in s1.owner;
    assert Leads(s1, [], m, Me(s, c));
    OneStep(s, Cas(c, false), m, Me(s, c));
  }

  /** A waiter looks at the free mutex again and takes it. */
  lemma Retry(s: System, c: Cpu, m: Mutex)
    requires !s.halted && s.lock == None && m !in s.owner && At(s, c, WaitEnter(MutexQ(m)))
    ensures CanOwn(s, m, Me(s, c))
  {
    hide CanOwn;
    var w, s1 := Me(s, c), Next(s, WaitAcquire(c));
    Grab(Next(s1, WaitEval(c)), c, m);
    OneStep(s1, WaitEval(c), m, w);
    OneStep(s, WaitAcquire(c), m, w);
  }

  // ----- a helper that is ready -----

  /** The policy may pick any ready task for any CPU. */
  lemma PickAny(s: Sched, c: Cpu, t: Task) returns (choice: nat)
    requires Placed(s) && c in s.current && t in s.state && s.state[t] == Ready && !IsIdle(s, t)
    ensures s.current[c] in s.state && c in s.idle
    ensures var s' := Resched(s, c, choice); c in s'.current && s'.current[c] == t
  {
    CurrentPlace(s, c);
    assert InPlace(s, t);
    hide Placed, InPlace;
    var off := PutPrev(s, c);
    assert t in off.ready;
    choice :| 0 <= choice < |off.ready| && off.ready[choice] == t;
  }

  lemma Dispatch(s: System, c: Cpu, t: Task) returns (choice: nat)
    requires Inv(s) && !s.halted && s.lock == None && c in s.sched.current
    requires t in s.sched.state && s.sched.state[t] == Ready && !IsIdle(s.sched, t)
    ensures var s' := Next(s, Yield(c, choice)); s' == s.(sched := s'.sched) && c in s'.sched.current && s'.sched.current[c] == t
  {
    hide Inv, Placed, Resched;
    PlacedOf(s);
    choice := PickAny(s.sched, c, t);
    assert Runs(s, c);
  }

  // ----- the unlocker -----

  /** The first sleeper is woken: it is ready, and about to look at the mutex again. */
  lemma Woken(s: System, c: Cpu, m: Mutex)
    requires Inv(s) && !s.halted && s.lock == None && At(s, c, UnlockNotify(m)) && Waiting(s, MutexQ(m)) != []
    ensures var s', w := Next(s, UnlockWake(c)), Waiting(s, MutexQ(m))[0];
      && !s'.halted && s'.lock == None && s'.owner == s.owner && c in s'.sched.current
      && w in s'.pc && s'.pc[w] == WaitEnter(MutexQ(m))
      && w in s'.sched.state && s'.sched.state[w] == Ready && !IsIdle(s'.sched, w)
  {
    hide Inv;
    var w := Waiting(s, MutexQ(m))[0];
    Sleeper(s, MutexQ(m));
    assert Waiting(Goto(s, Me(s, c), Plain), MutexQ(m)) == Waiting(s, MutexQ(m));
  }

  lemma Sleeper(s: System, q: Queue)
    requires Inv(s) && Waiting(s, q) != []
    ensures var w := Waiting(s, q)[0];
      w in s.pc && s.pc[w] == Asleep(q) && w in s.sched.state && s.sched.state[w] == Blocked && !IsIdle(s.sched, w)
  {
    var w := Waiting(s, q)[0];
    assert QueueOk(s, q);
    hide QueueOk, Placed;
    FirstAsleep(s, q);
    AllTasksOk(s, w);
  }

  lemma Notify(s: System, c: Cpu, m: Mutex)
    requires Inv(s) && !s.halted && s.lock == None && m !in s.owner
    requires At(s, c, UnlockNotify(m)) && Waiting(s, MutexQ(m)) != []
    ensures CanOwn(s, m, Waiting(s, MutexQ(m))[0])
  {
    hide Inv, CanOwn;
    var s1, w := Next(s, UnlockWake(c)), Waiting(s, MutexQ(m))[0];
    Woken(s, c, m);
    StepKeeps(s, UnlockWake(c));
    hide Next;
    var choice := Dispatch(s1, c, w);
    Retry(Next(s1, Yield(c, choice)), c, m);
    OneStep(s1, Yield(c, choice), m, w);
    OneStep(s, UnlockWake(c), m, w);
  }

  /** A contender takes the mutex, lets it go and notifies. */
  lemma PassOn(s: System, c: Cpu, m: Mutex)
    requires Inv(s) && !s.halted && s.lock == None && m !in s.owner && Waiting(s, MutexQ(m)) != []
    requires Runs(s, c) && s.pc[Me(s, c)].LockTry? && s.pc[Me(s, c)].m == m
    ensures CanOwn(s, m, Waiting(s, MutexQ(m))[0])
  {
    hide Inv, CanOwn;
    var w, s1 := Waiting(s, MutexQ(m))[0], Next(s, Cas(c, false));
    StepKeeps(s, Cas(c, false));
    StepKeeps(s1, UnlockSwap(c, m));
    Notify(Next(s1, UnlockSwap(c, m)), c, m);
    OneStep(s1, UnlockSwap(c, m), m, w);
    OneStep(s, Cas(c, false), m, w);
  }

  lemma RetryAndPassOn(s: System, c: Cpu, m: Mutex)
    requires Inv(s) && !s.halted && s.lock == None && m !in s.owner && Waiting(s, MutexQ(m)) != []
    requires At(s, c, WaitEnter(MutexQ(m)))
    ensures CanOwn(s, m, Waiting(s, MutexQ(m))[0])
  {
    hide Inv, CanOwn;
    var w, s1 := Waiting(s, MutexQ(m))[0], Next(s, WaitAcquire(c));
    StepKeeps(s, WaitAcquire(c));
    StepKeeps(s1, WaitEval(c));
    PassOn(Next(s1, WaitEval(c)), c, m);
    OneStep(s1, WaitEval(c), m, w);
    OneStep(s, WaitAcquire(c), m, w);
  }

  // ----- any helper -----

  /** A helper on a CPU, with the run-queue lock free. */
  lemma HelperRuns(s: System, c: Cpu, m: Mutex)
    requires Inv(s) && !s.halted && s.lock == None && m !in s.owner
    requires Runs(s, c) && Helps(s.pc[Me(s, c)], m) && Waiting(s, MutexQ(m)) != []
    ensures CanOwn(s, m, Waiting(s, MutexQ(m))[0])
  {
    hide Inv, CanOwn, Next, NoLostWakeup;
    AllTasksOk(s, Me(s, c));
    var pc := s.pc[Me(s, c)];
    if pc == UnlockNotify(m) {
      Notify(s, c, m);
    } else if pc == WaitEnter(MutexQ(m)) {
      RetryAndPassOn(s, c, m);
    } else {
      PassOn(s, c, m);
    }
  }

  lemma HelperReady(s: System, c: Cpu, t: Task, m: Mutex)
    requires Inv(s) && !s.halted && s.lock == None && m !in s.owner && c in s.sched.current
    requires t in s.pc && Helps(s.pc[t], m) && Waiting(s, MutexQ(m)) != []
    requires t in s.sched.state && s.sched.state[t] == Ready && !IsIdle(s.sched, t)
    ensures CanOwn(s, m, Waiting(s, MutexQ(m))[0])
  {
    hide Inv, CanOwn, Next;
    var choice := Dispatch(s, c, t);
    StepKeeps(s, Yield(c, choice));
    HelperRuns(Next(s, Yield(c, choice)), c, m);
    OneStep(s, Yield(c, choice), m, Waiting(s, MutexQ(m))[0]);
  }

  lemma OnSomeCpu(s: System, t: Task) returns (c: Cpu)
    requires Inv(s) && t in s.sched.state && s.sched.state[t] == Running
    ensures t in s.pc && Runs(s, c) && Me(s, c) == t
  {
    PlacedOf(s);
    assert InPlace(s.sched, t);
    c :| c in s.sched.current && s.sched.current[c] == t;
  }

  lemma Helper(s: System, m: Mutex) returns (t: Task)
    requires Inv(s) && m !in s.owner && Waiting(s, MutexQ(m)) != []
    ensures t in s.pc && t in s.sched.state && Helps(s.pc[t], m) && s.sched.state[t] in {Running, Ready}
  {
    hide Core;
    assert Helped(s, m);
    t :| t in s.pc && Helps(s.pc[t], m);
    AllTasksOk(s, t);
  }

  /** Somebody sleeps on the free mutex of a machine that runs. */
  ghost predicate Stalls(s: System, m: Mutex) {
    && !s.halted && s.sched.current != map[] && IdleAtRest(s)
    && m !in s.owner && Waiting(s, MutexQ(m)) != []
  }

  lemma LockFree(s: System, m: Mutex)
    requires Inv(s) && s.lock == None && Stalls(s, m)
    ensures CanOwn(s, m, Waiting(s, MutexQ(m))[0])
  {
    hide Inv, CanOwn;
    var t := Helper(s, m);
    if s.sched.state[t] == Running {
      var c := OnSomeCpu(s, t);
      HelperRuns(s, c, m);
    } else {
      var c :| c in s.sched.current;
      HelperReady(s, c, t, m);
    }
  }

  // ----- the holder of the run-queue lock -----

  /** A waiter that saw its condition false goes to sleep and lets go of the lock. */
  lemma Sleeps(s: System, c: Cpu, m: Mutex)
    requires Inv(s) && Stalls(s, m) && Runs(s, c) && s.pc[Me(s, c)].WaitSleep?
    ensures CanOwn(s, m, Waiting(s, MutexQ(m))[0])
  {
    hide Inv, CanOwn, Next, IdleAtRest;
    StillAtRest(s, c, m);
    StepKeeps(s, WaitBlock(c, 0));
    LockFree(Next(s, WaitBlock(c, 0)), m);
    OneStep(s, WaitBlock(c, 0), m, Waiting(s, MutexQ(m))[0]);
  }

  lemma StillAtRest(s: System, c: Cpu, m: Mutex)
    requires Inv(s) && Stalls(s, m) && Runs(s, c) && s.pc[Me(s, c)].WaitSleep?
    ensures var s' := Next(s, WaitBlock(c, 0));
      Stalls(s', m) && s'.lock == None && Waiting(s', MutexQ(m))[0] == Waiting(s, MutexQ(m))[0]
  {
    hide Inv, Placed, Leave, NoLostWakeup;
    RunningTask(s, c);
    PlacedOf(s);
    LeaveEffect(s.sched, c, Blocked, 0);
    assert c in Next(s, WaitBlock(c, 0)).sched.current;
  }

  /** A waiter that holds the lock finds its condition true, or goes to sleep. */
  lemma Tests(s: System, c: Cpu, m: Mutex)
    requires Inv(s) && Stalls(s, m) && Runs(s, c) && s.pc[Me(s, c)].WaitTest?
    ensures CanOwn(s, m, Waiting(s, MutexQ(m))[0])
  {
    hide Inv, CanOwn, NoLostWakeup;
    var t, s1 := Me(s, c), Next(s, WaitEval(c));
    RunningTask(s, c);
    StepKeeps(s, WaitEval(c));
    assert Stalls(s1, m);
    if Condition(s, s.pc[t].q) {
      LockFree(s1, m);
    } else {
      Sleeps(s1, c, m);
    }
    OneStep(s, WaitEval(c), m, Waiting(s, MutexQ(m))[0]);
  }

  lemma FromHere(s: System, m: Mutex)
    requires Inv(s) && Stalls(s, m)
    ensures CanOwn(s, m, Waiting(s, MutexQ(m))[0])
  {
    if s.lock == None {
      LockFree(s, m);
    } else {
      AllTasksOk(s, s.lock.value);
      hide Inv, CanOwn;
      var c := OnSomeCpu(s, s.lock.value);
      if s.pc[s.lock.value].WaitTest? {
        Tests(s, c, m);
      } else {
        Sleeps(s, c, m);
      }
    }
  }

  // ----- from the start -----

  /** Without a CPU nobody ever sleeps. */
  ghost predicate SleepersHaveCpu(s: System) {
    s.sched.current == map[] ==> s.queues == map[]
  }

  lemma IdleStays(s: System, a: Action)
    ensures Next(s, a).sched.idle == s.sched.idle
  {
    hide Act;
    match a
    case Exit(c, code, choice) => ExitKeepsIdle(s, c, code, choice);
    case UnlockWake(c) => WakeKeepsIdle(s, c);
    case WaitBlock(c, choice) => LeaveKeepsIdle(s, a, c, choice);
    case GcWait(c, choice) => LeaveKeepsIdle(s, a, c, choice);
    case Yield(c, choice) => LeaveKeepsIdle(s, a, c, choice);
    case Nap(c, choice) => LeaveKeepsIdle(s, a, c, choice);
    case _ => LocalKeepsIdle(s, a);
  }

  lemma ExitKeepsIdle(s: System, c: Cpu, code: int, choice: nat)
    ensures Act(s, Exit(c, code, choice)).sched.idle == s.sched.idle
  {
    hide Leave, NotifyOne, NotifyAll;
    if Runs(s, c) {
      NotifyIdle(s, ExitQ(Me(s, c)));
      var s1 := NotifyAll(s, ExitQ(Me(s, c)));
      NotifyOneIdle(s1, GcQ);
      SwitchKeepsIdle(NotifyOne(s1, GcQ).sched, c, Exited, choice);
    }
  }

  lemma WakeKeepsIdle(s: System, c: Cpu)
    ensures Act(s, UnlockWake(c)).sched.idle == s.sched.idle
  {
    hide NotifyOne;
    if Runs(s, c) && s.pc[Me(s, c)].UnlockNotify? {
      NotifyOneIdle(Goto(s, Me(s, c), Plain), MutexQ(s.pc[Me(s, c)].m));
    }
  }

  lemma LeaveKeepsIdle(s: System, a: Action, c: Cpu, choice: nat)
    requires a in {WaitBlock(c, choice), GcWait(c, choice), Yield(c, choice), Nap(c, choice)}
    ensures Act(s, a).sched.idle == s.sched.idle
  {
    hide Leave, Resched;
    SwitchKeepsIdle(s.sched, c, Blocked, choice);
  }

  lemma MutexKeepsSched(s: System, c: Cpu, m: Mutex, weak: bool)
    ensures CasStep(s, c, weak).sched == s.sched && TryLockStep(s, c, m).sched == s.sched
    ensures UnlockSwapStep(s, c, m).sched == s.sched
  {
  }

  lemma WaitKeepsSched(s: System, c: Cpu)
    ensures WaitAcquireStep(s, c).sched == s.sched && WaitEvalStep(s, c).sched == s.sched
  {
    hide Condition;
  }

  lemma LocalKeepsIdle(s: System, a: Action)
    requires !a.Exit? && !a.UnlockWake? && !a.WaitBlock? && !a.GcWait? && !a.Yield? && !a.Nap?
    ensures Act(s, a).sched.idle == s.sched.idle
  {
    hide CasStep, TryLockStep, UnlockSwapStep, WaitAcquireStep, WaitEvalStep, ExitStep, WaitBlockStep, UnlockWakeStep, Sleep;
    hide Resched, Leave, IsIdle;
    match a
    case Cas(c, weak) => MutexKeepsSched(s, c, 0, weak);
    case TryLock(c, m) => MutexKeepsSched(s, c, m, false);
    case UnlockSwap(c, m) => MutexKeepsSched(s, c, m, false);
    case WaitAcquire(c) => WaitKeepsSched(s, c);
    case WaitEval(c) => WaitKeepsSched(s, c);
    case _ =>
  }

  lemma SwitchKeepsIdle(s: Sched, c: Cpu, st: TaskState, choice: nat)
    ensures c in s.idle && c in s.current && s.current[c] in s.state ==>
      Resched(s, c, choice).idle == s.idle && Leave(s, c, st, choice).idle == s.idle
  {
  }

  lemma NotifyOneIdle(s: System, q: Queue)
    ensures NotifyOne(s, q).sched.idle == s.sched.idle
  {
  }

  lemma {:induction false} NotifyIdle(s: System, q: Queue)
    ensures NotifyAll(s, q).sched.idle == s.sched.idle
    decreases |Waiting(s, q)|
  {
    if Waiting(s, q) != [] {
      NotifyOneIdle(s, q);
      NotifyIdle(NotifyOne(s, q), q);
    }
  }

  lemma CpuStep(s: System, a: Action)
    requires Inv(s) && SleepersHaveCpu(s)
    ensures SleepersHaveCpu(Next(s, a))
  {
    hide Inv, Placed;
    StepKeeps(s, a);
    PlacedOf(s);
    PlacedOf(Next(s, a));
    IdleStays(s, a);
    if s.sched.current == map[] {
      NoCpu(s, a);
    }
  }

  lemma NoCpu(s: System, a: Action)
    requires s.sched.current == map[]
    ensures Next(s, a).queues == s.queues
  {
  }

  lemma {:induction false} CpuRun(s: System, actions: seq<Action>)
    requires Inv(s) && SleepersHaveCpu(s)
    ensures Inv(Run(s, actions)) && SleepersHaveCpu(Run(s, actions))
    decreases |actions|
  {
    hide Inv, Next, SleepersHaveCpu;
    if actions != [] {
      StepKeeps(s, actions[0]);
      CpuStep(s, actions[0]);
      CpuRun(Next(s, actions[0]), actions[1..]);
    }
  }

  /** In every interleaving the first sleeper on a free mutex can still come to own it, by steps of
      the calls already begun: no wake-up is lost for good and nobody new has to contend. */
  lemma HelpArrives(s0: System, actions: seq<Action>, m: Mutex)
    requires Initial(s0)
    ensures var s := Run(s0, actions);
      !s.halted && IdleAtRest(s) && m !in s.owner && Waiting(s, MutexQ(m)) != [] ==> CanOwn(s, m, Waiting(s, MutexQ(m))[0])
  {
    hide Inv, CanOwn, Run, IdleAtRest;
    InitialInOrder(s0);
    CpuRun(s0, actions);
    var s := Run(s0, actions);
    if !s.halted && IdleAtRest(s) && m !in s.owner && Waiting(s, MutexQ(m)) != [] {
      FromHere(s, m);
    }
  }

  // ----- an idle task that was switched away from -----

  /** One CPU with idle task 0 and the tasks 1 and 2, in states `a`, `b` and `c`. */
  function Machine(a: TaskState, b: TaskState, c: TaskState, current: Task, ready: seq<Task>,
                   owner: map<Mutex, Task>, guards: set<(Mutex, Task)>, pc: map<Task, Pc>, queues: map<Queue, seq<Task>>): System
  {
    System(Sched(map[0 := a, 1 := b, 2 := c], map[0 := 0], map[0 := current], ready), 1, false, None,
           owner, guards, pc, queues, map[], map[])
  }

  function AtStart(): System {
    Machine(Running, Ready, Ready, 0, [1, 2], map[], {}, map[0 := Plain, 1 := Plain, 2 := Plain], map[])
  }

  /** The idle task has mutex 7, and task 2 runs. */
  function Held(): System {
    Machine(Ready, Ready, Running, 2, [1], map[7 := 0], {(7, 0)}, map[0 := Plain, 1 := Plain, 2 := Plain], map[])
  }

  /** Task 2 has tried to take it. */
  function Contended(): System {
    Held().(pc := map[0 := Plain, 1 := Plain, 2 := WaitEnter(MutexQ(7))])
  }

  /** Task 2 sleeps on it, and task 1 runs. */
  function Slept(): System {
    Machine(Ready, Running, Blocked, 1, [], map[7 := 0], {(7, 0)},
            map[0 := Plain, 1 := Plain, 2 := Asleep(MutexQ(7))], map[MutexQ(7) := [2]])
  }

  /** Task 1 naps, and the idle task has cleared the owner. */
  function Cleared(): System {
    Machine(Running, Blocked, Blocked, 0, [], map[], {},
            map[0 := UnlockNotify(7), 1 := Napping, 2 := Asleep(MutexQ(7))], map[MutexQ(7) := [2]])
  }

  /** Task 1 is back, and the idle task was switched away from before it could notify. */
  function Away(): System {
    Machine(Ready, Running, Blocked, 1, [], map[], {},
            map[0 := UnlockNotify(7), 1 := Plain, 2 := Asleep(MutexQ(7))], map[MutexQ(7) := [2]])
  }

  lemma ToHeld()
    ensures Run(AtStart(), [TryLock(0, 7), Yield(0, 1)]) == Held()
  {
    TwoSteps(AtStart(), TryLock(0, 7), Yield(0, 1));
    hide ExitStep, WaitBlockStep, WaitEvalStep, WaitAcquireStep, UnlockWakeStep, UnlockSwapStep, CasStep, Sleep, Leave, Run;
    assert Next(AtStart(), TryLock(0, 7)) == AtStart().(owner := map[7 := 0], guards := {(7, 0)});
  }

  lemma ToContended()
    ensures Run(Held(), [LockBegin(0, 7), Cas(0, false)]) == Contended()
  {
    TwoSteps(Held(), LockBegin(0, 7), Cas(0, false));
  }

  lemma ToSlept()
    ensures Run(Run(Contended(), [WaitAcquire(0), WaitEval(0)]), [WaitBlock(0, 0)]) == Slept()
  {
    TwoSteps(Contended(), WaitAcquire(0), WaitEval(0));
    var s := Contended().(pc := Contended().pc[2 := WaitSleep(MutexQ(7))], lock := Some(2));
    assert Next(Next(Contended(), WaitAcquire(0)), WaitEval(0)) == s;
    assert Run(s, [WaitBlock(0, 0)]) == Next(s, WaitBlock(0, 0));
    BlockTwo(s);
  }

  lemma BlockTwo(s: System)
    requires s == Contended().(pc := Contended().pc[2 := WaitSleep(MutexQ(7))], lock := Some(2))
    ensures Next(s, WaitBlock(0, 0)) == Slept()
  {
    hide ExitStep, WaitEvalStep, WaitAcquireStep, UnlockWakeStep, UnlockSwapStep, CasStep, TryLockStep;
    var s' := Next(s, WaitBlock(0, 0));
    assert s'.sched.state == Slept().sched.state && s'.sched.current == Slept().sched.current && s'.sched.ready == [];
    assert Waiting(s, MutexQ(7)) + [2] == [2];
    assert s'.pc == Slept().pc && s'.queues == Slept().queues;
  }

  lemma ToCleared()
    ensures Run(Slept(), [Nap(0, 0), UnlockSwap(0, 7)]) == Cleared()
  {
    TwoSteps(Slept(), Nap(0, 0), UnlockSwap(0, 7));
    NapOne();
    hide Slept;
  }

  lemma NapOne()
    ensures Next(Slept(), Nap(0, 0)) == Cleared().(
      owner := map[7 := 0], guards := {(7, 0)}, pc := map[0 := Plain, 1 := Napping, 2 := Asleep(MutexQ(7))])
  {
    hide ExitStep, WaitBlockStep, WaitEvalStep, WaitAcquireStep, UnlockWakeStep, UnlockSwapStep, CasStep, TryLockStep, Sleep;
    hide Leave, Resched;
    LeaveOne();
  }

  lemma LeaveOne()
    ensures Leave(Slept().sched, 0, Blocked, 0) == Cleared().sched
  {
    var s := Leave(Slept().sched, 0, Blocked, 0);
    assert s.state == Cleared().sched.state && s.current == Cleared().sched.current && s.ready == [];
  }

  lemma ToAway()
    ensures Run(Cleared(), [TimerFire(1), Yield(0, 0)]) == Away()
  {
    TwoSteps(Cleared(), TimerFire(1), Yield(0, 0));
    WakeOne();
    SwitchToOne();
    hide Next;
  }

  function Woke(): System {
    Machine(Running, Ready, Blocked, 0, [1], map[], {}, Away().pc, Away().queues)
  }

  lemma WakeOne()
    ensures Next(Cleared(), TimerFire(1)) == Woke()
  {
  }

  lemma SwitchToOne()
    ensures Next(Woke(), Yield(0, 0)) == Away()
  {
    var s := Next(Woke(), Yield(0, 0)).sched;
    assert s.state == Away().sched.state && s.current == Away().sched.current && s.ready == [];
  }

  lemma AwayStays(a: Action)
    requires Continues(a)
    ensures Next(Away(), a) == Away()
  {
    hide ExitStep, NotifyOne, Sleep, Leave, TryLockStep;
    if a.Yield? && a.c == 0 {
      assert Next(Away(), a).sched.state == Away().sched.state;
      assert Next(Away(), a).sched.current == Away().sched.current;
    }
  }

  lemma {:induction false} AwayForGood(more: seq<Action>)
    requires forall i | 0 <= i < |more| :: Continues(more[i])
    ensures Run(Away(), more) == Away()
    decreases |more|
  {
    hide Next, Away;
    if more != [] {
      AwayStays(more[0]);
      AwayForGood(more[1..]);
    }
  }

  lemma {:induction false} RunOn(s: System, a: seq<Action>, b: seq<Action>)
    ensures Run(s, a + b) == Run(Run(s, a), b)
    decreases |a|
  {
    hide Next;
    if a == [] {
      assert a + b == b;
    } else {
      assert (a + b)[1..] == a[1..] + b;
      RunOn(Next(s, a[0]), a[1..], b);
    }
  }

  /** The condition of `HelpArrives` cannot be dropped: an idle task that took a mutex, cleared it
      and was switched away from leaves the sleeper without help while another task runs. */
  lemma IdleAway() returns (s0: System, actions: seq<Action>)
    ensures Initial(s0)
    ensures var s := Run(s0, actions);
      && !s.halted && 7 !in s.owner && Waiting(s, MutexQ(7)) == [2] && !IdleAtRest(s)
      && forall w :: !CanOwn(s, 7, w)
  {
    s0 := AtStart();
    actions := ReachAway();
    StartsInOrder();
    NoHelp();
    hide Run, CanOwn, IdleAtRest, Initial;
  }

  lemma ReachAway() returns (actions: seq<Action>)
    ensures Run(AtStart(), actions) == Away()
  {
    hide Run, AtStart, Held, Contended, Slept, Cleared, Away;
    ToHeld();
    ToContended();
    ToSlept();
    ToCleared();
    ToAway();
    actions := [TryLock(0, 7), Yield(0, 1)];
    actions := Onward(actions, [LockBegin(0, 7), Cas(0, false)]);
    actions := Onward(actions, [WaitAcquire(0), WaitEval(0)]);
    actions := Onward(actions, [WaitBlock(0, 0)]);
    actions := Onward(actions, [Nap(0, 0), UnlockSwap(0, 7)]);
    actions := Onward(actions, [TimerFire(1), Yield(0, 0)]);
  }

  lemma Onward(a: seq<Action>, b: seq<Action>) returns (c: seq<Action>)
    ensures c == a + b && Run(AtStart(), c) == Run(Run(AtStart(), a), b)
  {
    RunOn(AtStart(), a, b);
    c := a + b;
  }

  lemma StartsInOrder()
    ensures Initial(AtStart())
  {
    var s := AtStart().sched;
    assert OnCpu(s.current, 0) by { assert s.current[0] == 0; }
  }

  lemma NoHelp()
    ensures !IdleAtRest(Away()) && forall w :: !CanOwn(Away(), 7, w)
  {
    assert Away().sched.idle[0] == 0;
    assert IsIdle(Away().sched, 0);
    forall w, more ensures !Leads(Away(), more, 7, w) {
      if forall i | 0 <= i < |more| :: Continues(more[i]) {
        AwayForGood(more);
      }
    }
  }
}
