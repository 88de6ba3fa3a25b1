/** What `join` returns, said of the calls that were made: the code is the argument of the joined
    task's `exit`, and the task is the argument of `join`. */
module JoinHistory {
  import opened Options
  import opened Scheduling
  import opened TaskSystem

  /** The step is `exit` by `t`, which does not stop the machine. */
  predicate Exits(s: System, a: Action, t: Task) {
    a.Exit? && !s.halted && Ordinary(s, a.c) && s.lock == None && Me(s, a.c) == t && t != s.init
  }

  /** The step is a call of `join` by `t`. */
  predicate Joins(s: System, a: Action, t: Task) {
    a.JoinBegin? && !s.halted && Ordinary(s, a.c) && a.of in s.pc && Me(s, a.c) == t
  }

  /** The code that `t` passed to `exit` in the run, if it did. */
  function ExitArgument(s0: System, actions: seq<Action>, t: Task): Option<int>
    decreases |actions|
  {
    if actions == [] then None
    else
      var n := |actions| - 1;
      if Exits(Run(s0, actions[..n]), actions[n], t) then Some(actions[n].code) else ExitArgument(s0, actions[..n], t)
  }

  /** The task that `t` asked to join last in the run. */
  function JoinArgument(s0: System, actions: seq<Action>, t: Task): Option<Task>
    decreases |actions|
  {
    if actions == [] then None
    else
      var n := |actions| - 1;
      if Joins(Run(s0, actions[..n]), actions[n], t) then Some(actions[n].of) else JoinArgument(s0, actions[..n], t)
  }

  /** The task that a position in `join` is about. */
  function JoinOf(pc: Pc): Option<Task> {
    match pc
    case WaitEnter(ExitQ(of)) => Some(of)
    case WaitTest(ExitQ(of)) => Some(of)
    case WaitSleep(ExitQ(of)) => Some(of)
    case Asleep(ExitQ(of)) => Some(of)
    case JoinRead(of) => Some(of)
    case JoinDone(of, _) => Some(of)
    case _ => None
  }

  lemma {:induction false} LastStep(s: System, actions: seq<Action>)
    requires actions != []
    ensures Run(s, actions) == Next(Run(s, actions[..|actions| - 1]), actions[|actions| - 1])
    decreases |actions|
  {
    hide Next;
    var n := |actions| - 1;
    if n > 0 {
      assert actions[1..][..n - 1] == actions[..n][1..];
      LastStep(Next(s, actions[0]), actions[1..]);
    }
  }

  // ----- one step -----

  /** Others are at most woken. */
  predicate Moved(pc: Pc, pc': Pc) {
    pc' == pc || (pc.Asleep? && pc' == AfterWake(pc.q)) || (pc.Napping? && pc' == Plain)
  }

  predicate SameCodes(s: System, s': System, t: Task) {
    && (t in s'.passed <==> t in s.passed) && (t in s.passed ==> s'.passed[t] == s.passed[t])
    && (t in s.exitCode ==> t in s'.exitCode && s'.exitCode[t] == s.exitCode[t])
  }

  predicate Acts(s: System, a: Action, t: Task) {
    !a.TimerFire? && !a.Spawn? && Runs(s, a.c) && Me(s, a.c) == t
  }

  lemma WakesOne(s: System, q: Queue, u: Task)
    requires Inv(s) && u in s.pc
    ensures var s' := NotifyOne(s, q);
      u in s'.pc && (s'.pc[u] == s.pc[u] || (s.pc[u] == Asleep(q) && s'.pc[u] == AfterWake(q))) && SameCodes(s, s', u)
  {
    hide Core, NoLostWakeup;
    if Waiting(s, q) != [] {
      QueueInOrder(s, q);
      FirstAsleep(s, q);
    }
  }

  lemma QueueInOrder(s: System, q: Queue)
    requires Inv(s)
    ensures QueueOk(s, q)
  {
    hide Placed, TaskOk;
  }

  lemma {:induction false} WakesAll(s: System, q: Queue, u: Task)
    requires Inv(s) && s.lock == None && u in s.pc
    ensures var s' := NotifyAll(s, q);
      u in s'.pc && (s'.pc[u] == s.pc[u] || (s.pc[u] == Asleep(q) && s'.pc[u] == AfterWake(q))) && SameCodes(s, s', u)
    decreases |Waiting(s, q)|
  {
    hide Inv;
    if Waiting(s, q) != [] {
      NotifyKeeps(s, q);
      WakesOne(s, q, u);
      WakesAll(NotifyOne(s, q), q, u);
    }
  }

  /** What `exit` does before the task leaves its CPU. */
  lemma ExitWakes(s: System, c: Cpu, t: Task, u: Task)
    requires Inv(s) && Ordinary(s, c) && s.lock == None && Me(s, c) == t && u in s.pc
    ensures var s2 := NotifyOne(NotifyAll(s, ExitQ(t)), GcQ);
      && u in s2.pc && Moved(s.pc[u], s2.pc[u]) && SameCodes(s, s2, u)
      && c in s2.sched.idle && c in s2.sched.current && s2.sched.current[c] in s2.sched.state
  {
    hide Inv, NotifyAll, NotifyOne, NoLostWakeup, Placed;
    RunningTask(s, c);
    NotifyAllEffect(s, ExitQ(t), t);
    var s1 := NotifyAll(s, ExitQ(t));
    WakesAll(s, ExitQ(t), u);
    WakesOne(s1, GcQ, u);
    NotifyKeeps(s1, GcQ);
    NotifyCpus(s1, GcQ);
    var s2 := NotifyOne(s1, GcQ);
    PlacedOf(s2);
    CurrentPlace(s2.sched, c);
  }

  lemma NotifyCpus(s: System, q: Queue)
    ensures NotifyOne(s, q).sched.current == s.sched.current && NotifyOne(s, q).sched.idle == s.sched.idle
  {
  }

  /** What a step may do to a task: one that does not take it is at most woken; the one that takes it
      stays in its `join`, leaves it or begins one, and has its code set by `exit` alone. */
  ghost predicate StepOk(s: System, a: Action, s': System, u: Task)
    requires u in s.pc
  {
    && u in s'.pc
    && (if Acts(s, a, u) then
          JoinOf(s'.pc[u]).Some? ==> JoinOf(s'.pc[u]) == if Joins(s, a, u) then Some(a.of) else JoinOf(s.pc[u])
        else Moved(s.pc[u], s'.pc[u]))
    && (if Exits(s, a, u) then
          s'.pc[u] == Dead && u in s'.exitCode && s'.exitCode[u] == a.code && u in s'.passed && s'.passed[u] == a.code
        else SameCodes(s, s', u))
  }

  lemma ByExit(s: System, a: Action, u: Task)
    requires Inv(s) && !s.halted && a.Exit? && u in s.pc
    ensures StepOk(s, a, ExitStep(s, a.c, a.code, a.choice), u)
  {
    hide Inv, NotifyAll, NotifyOne, Leave, Moved, SameCodes, NoLostWakeup;
    Unmoved(s, u);
    if Ordinary(s, a.c) && s.lock == None {
      RunningTask(s, a.c);
      if Me(s, a.c) != s.init {
        ExitWakes(s, a.c, Me(s, a.c), u);
        Died(s, a, u);
      } else {
        Stopped(s, a, u);
      }
    }
  }

  lemma Died(s: System, a: Action, u: Task)
    requires a.Exit? && !s.halted && Ordinary(s, a.c) && s.lock == None && Me(s, a.c) != s.init && u in s.pc
    requires a.c in s.sched.idle && Me(s, a.c) in s.sched.state
    requires var s2 := NotifyOne(NotifyAll(s, ExitQ(Me(s, a.c))), GcQ);
      && u in s2.pc && Moved(s.pc[u], s2.pc[u]) && SameCodes(s, s2, u)
      && a.c in s2.sched.idle && a.c in s2.sched.current && s2.sched.current[a.c] in s2.sched.state
    ensures StepOk(s, a, ExitStep(s, a.c, a.code, a.choice), u)
  {
    hide NotifyAll, NotifyOne, Leave, Moved;
  }

  lemma Stopped(s: System, a: Action, u: Task)
    requires a.Exit? && Runs(s, a.c) && Me(s, a.c) == s.init && u in s.pc
    ensures StepOk(s, a, s, u) && StepOk(s, a, s.(halted := true), u)
  {
  }

  lemma Unmoved(s: System, u: Task)
    requires u in s.pc
    ensures Moved(s.pc[u], s.pc[u]) && SameCodes(s, s, u)
  {
  }

  lemma ByUnlock(s: System, a: Action, u: Task)
    requires Inv(s) && a.UnlockWake? && u in s.pc
    ensures StepOk(s, a, UnlockWakeStep(s, a.c), u)
  {
    hide Inv, NoLostWakeup;
    if Runs(s, a.c) && s.pc[Me(s, a.c)].UnlockNotify? && s.lock == None {
      var q := MutexQ(s.pc[Me(s, a.c)].m);
      RunningTask(s, a.c);
      QueueInOrder(s, q);
      assert Waiting(Goto(s, Me(s, a.c), Plain), q) == Waiting(s, q);
      if Waiting(s, q) != [] {
        FirstAsleep(s, q);
      }
    }
  }

  /** A step that moves at most the task that takes it, and keeps it in the same `join` or in none. */
  predicate Local(s: System, c: Cpu, s': System) {
    && s'.passed == s.passed && s'.exitCode == s.exitCode
    && (s'.pc == s.pc
        || (Runs(s, c) && Me(s, c) in s'.pc && s'.pc == s.pc[Me(s, c) := s'.pc[Me(s, c)]]
            && (JoinOf(s'.pc[Me(s, c)]).Some? ==> JoinOf(s'.pc[Me(s, c)]) == JoinOf(s.pc[Me(s, c)]))))
  }

  lemma ByLocal(s: System, a: Action, s': System, u: Task)
    requires u in s.pc && !a.TimerFire? && !a.Spawn? && !a.Exit? && !a.JoinBegin? && Local(s, a.c, s')
    ensures StepOk(s, a, s', u)
  {
    hide JoinOf;
  }

  lemma Goes(s: System, c: Cpu, pc: Pc, s': System)
    requires s'.passed == s.passed && s'.exitCode == s.exitCode
    requires s'.pc == s.pc || (Runs(s, c) && s'.pc == s.pc[Me(s, c) := pc] && JoinOf(pc) in {None, JoinOf(s.pc[Me(s, c)])})
    ensures Local(s, c, s')
  {
    hide JoinOf;
  }

  lemma CasLocal(s: System, c: Cpu, weak: bool)
    ensures Local(s, c, CasStep(s, c, weak))
  {
    hide Local, JoinOf;
    if Runs(s, c) && s.pc[Me(s, c)].LockTry? {
      var t, m := Me(s, c), s.pc[Me(s, c)].m;
      var pc := if m in s.owner && s.owner[m] == t then Panicked(m, s.pc[t].nested)
        else if m in s.owner || weak then WaitEnter(MutexQ(m))
        else Plain;
      assert CasStep(s, c, weak).pc == s.pc[t := pc];
      NoJoin(pc);
      Goes(s, c, pc, CasStep(s, c, weak));
    } else {
      Goes(s, c, Plain, s);
    }
  }

  lemma NoJoin(pc: Pc)
    requires pc.Plain? || pc.LockTry? || pc.UnlockNotify? || pc.Napping? || pc.Panicked? || pc == Asleep(GcQ)
      || (pc.WaitEnter? && pc.q.MutexQ?)
    ensures JoinOf(pc) == None
  {
  }

  lemma TryLockLocal(s: System, c: Cpu, m: Mutex)
    ensures Local(s, c, TryLockStep(s, c, m))
  {
    hide Local, JoinOf;
    Goes(s, c, Plain, TryLockStep(s, c, m));
  }

  lemma UnlockSwapLocal(s: System, c: Cpu, m: Mutex)
    ensures Local(s, c, UnlockSwapStep(s, c, m))
  {
    hide Local, JoinOf;
    var s' := UnlockSwapStep(s, c, m);
    if At(s, c, Plain) && (m, Me(s, c)) in s.guards {
      var t := Me(s, c);
      var pc := if m in s.owner && s.owner[m] == t then UnlockNotify(m) else Panicked(m, false);
      assert s'.pc == s.pc[t := pc];
      NoJoin(pc);
      Goes(s, c, pc, s');
    } else {
      Goes(s, c, Plain, s);
    }
  }

  lemma WaitAcquireLocal(s: System, c: Cpu)
    ensures Local(s, c, WaitAcquireStep(s, c))
  {
    hide Local;
    if Runs(s, c) && s.pc[Me(s, c)].WaitEnter? && s.lock == None {
      var q := s.pc[Me(s, c)].q;
      SameJoinOf(q);
      hide JoinOf;
      Goes(s, c, WaitTest(q), WaitAcquireStep(s, c));
    } else {
      Goes(s, c, Plain, s);
    }
  }

  lemma WaitEvalLocal(s: System, c: Cpu)
    ensures Local(s, c, WaitEvalStep(s, c))
  {
    hide Local, Condition;
    if Runs(s, c) && s.pc[Me(s, c)].WaitTest? {
      var q := s.pc[Me(s, c)].q;
      SameJoinOf(q);
      hide JoinOf;
      Goes(s, c, if Condition(s, q) then AfterWait(q) else WaitSleep(q), WaitEvalStep(s, c));
    } else {
      Goes(s, c, Plain, s);
    }
  }

  lemma SameJoinOf(q: Queue)
    ensures JoinOf(WaitTest(q)) == JoinOf(WaitEnter(q)) == JoinOf(WaitSleep(q)) && JoinOf(AfterWait(q)) == JoinOf(WaitTest(q))
  {
  }

  lemma BlockLocal(s: System, c: Cpu, choice: nat)
    ensures Local(s, c, WaitBlockStep(s, c, choice))
  {
    hide Leave, Waiting;
  }

  lemma YieldLocal(s: System, a: Action)
    requires a.Yield?
    ensures Local(s, a.c, Act(s, a))
  {
    hide CasStep, TryLockStep, UnlockSwapStep, WaitAcquireStep, WaitEvalStep, ExitStep, WaitBlockStep, UnlockWakeStep, Sleep;
    hide Leave, Resched, Waiting, Local, JoinOf, Ordinary, IsIdle;
    Goes(s, a.c, Plain, Act(s, a));
  }

  lemma SleepLocal(s: System, a: Action)
    requires a.GcWait? || a.Nap?
    ensures Local(s, a.c, Act(s, a))
  {
    hide CasStep, TryLockStep, UnlockSwapStep, WaitAcquireStep, WaitEvalStep, ExitStep, WaitBlockStep, UnlockWakeStep;
    hide Leave, Resched, Waiting, Local, JoinOf, Ordinary, IsIdle;
    OrdinaryRuns(s, a.c);
    if a.GcWait? {
      NoJoin(Asleep(GcQ));
      Goes(s, a.c, Asleep(GcQ), Act(s, a));
    } else {
      NoJoin(Napping);
      Goes(s, a.c, Napping, Act(s, a));
    }
  }

  lemma OrdinaryRuns(s: System, c: Cpu)
    ensures Ordinary(s, c) ==> Runs(s, c)
  {
  }

  lemma CallLocal(s: System, a: Action)
    requires a.LockBegin? || a.JoinLoad? || a.JoinReturn?
    ensures Local(s, a.c, Act(s, a))
  {
    hide CasStep, TryLockStep, UnlockSwapStep, WaitAcquireStep, WaitEvalStep, ExitStep, WaitBlockStep, UnlockWakeStep, Sleep;
    hide Leave, Resched, Waiting, Local, Ordinary, IsIdle;
    OrdinaryRuns(s, a.c);
    var s' := Act(s, a);
    Goes(s, a.c, if Runs(s, a.c) && Me(s, a.c) in s'.pc then s'.pc[Me(s, a.c)] else Plain, s');
  }

  lemma ByJoin(s: System, a: Action, u: Task)
    requires u in s.pc && !s.halted && a.JoinBegin?
    ensures StepOk(s, a, Act(s, a), u)
  {
    hide CasStep, TryLockStep, UnlockSwapStep, WaitAcquireStep, WaitEvalStep, ExitStep, WaitBlockStep, UnlockWakeStep, Sleep;
    hide Leave, Resched, Waiting;
  }

  lemma ByOthers(s: System, a: Action, u: Task)
    requires u in s.pc && (a.TimerFire? || a.Spawn?)
    ensures StepOk(s, a, Act(s, a), u)
  {
    hide CasStep, TryLockStep, UnlockSwapStep, WaitAcquireStep, WaitEvalStep, ExitStep, WaitBlockStep, UnlockWakeStep, Sleep;
    hide Leave, Resched, Waiting, Unblock, AddTask;
  }

  lemma StepFacts(s: System, a: Action, u: Task)
    requires Inv(s) && u in s.pc
    ensures StepOk(s, a, Next(s, a), u)
  {
    hide Inv, StepOk, Local, ExitStep, UnlockWakeStep, CasStep, TryLockStep, UnlockSwapStep, WaitAcquireStep, WaitEvalStep;
    hide WaitBlockStep, Sleep, Leave, Resched;
    if s.halted {
      HaltedFacts(s, a, u);
    } else {
      match a
      case Exit(_, _, _) => ByExit(s, a, u);
      case UnlockWake(_) => ByUnlock(s, a, u);
      case JoinBegin(_, _) => ByJoin(s, a, u);
      case TimerFire(_) => ByOthers(s, a, u);
      case Spawn(_) => ByOthers(s, a, u);
      case _ =>
        IsLocal(s, a);
        ByLocal(s, a, Act(s, a), u);
    }
  }

  lemma IsLocal(s: System, a: Action)
    requires !a.Exit? && !a.UnlockWake? && !a.JoinBegin? && !a.TimerFire? && !a.Spawn?
    ensures Local(s, a.c, Act(s, a))
  {
    hide Local, CasStep, TryLockStep, UnlockSwapStep, WaitAcquireStep, WaitEvalStep, ExitStep, WaitBlockStep, UnlockWakeStep;
    hide Sleep, Leave, Resched;
    match a
    case Cas(c, weak) => CasLocal(s, c, weak);
    case TryLock(c, m) => TryLockLocal(s, c, m);
    case UnlockSwap(c, m) => UnlockSwapLocal(s, c, m);
    case WaitAcquire(c) => WaitAcquireLocal(s, c);
    case WaitEval(c) => WaitEvalLocal(s, c);
    case WaitBlock(c, choice) => BlockLocal(s, c, choice);
    case GcWait(_, _) => SleepLocal(s, a);
    case Yield(_, _) => YieldLocal(s, a);
    case Nap(_, _) => SleepLocal(s, a);
    case _ => CallLocal(s, a);
  }

  lemma HaltedFacts(s: System, a: Action, u: Task)
    requires s.halted && u in s.pc
    ensures StepOk(s, a, s, u)
  {
  }

  // ----- whole runs -----

  /** The arguments so far, read off the state. */
  ghost predicate Recorded(s0: System, actions: seq<Action>, t: Task) {
    var s := Run(s0, actions);
    && (ExitArgument(s0, actions, t) == if t in s.passed then Some(s.passed[t]) else None)
    && (t in s.pc && JoinOf(s.pc[t]).Some? ==> JoinArgument(s0, actions, t) == JoinOf(s.pc[t]))
  }

  lemma {:induction false} Records(s0: System, actions: seq<Action>, t: Task)
    requires Initial(s0)
    ensures Recorded(s0, actions, t)
    decreases |actions|
  {
    if actions != [] {
      var n := |actions| - 1;
      Records(s0, actions[..n], t);
      Reached(s0, actions[..n]);
      LastStep(s0, actions);
      RecordStep(s0, actions, t);
    }
  }

  lemma RecordStep(s0: System, actions: seq<Action>, t: Task)
    requires actions != [] && Inv(Run(s0, actions[..|actions| - 1])) && Recorded(s0, actions[..|actions| - 1], t)
    requires Run(s0, actions) == Next(Run(s0, actions[..|actions| - 1]), actions[|actions| - 1])
    ensures Recorded(s0, actions, t)
  {
    hide Run, Inv, Next, Moved, Exits, Joins;
    var s, a := Run(s0, actions[..|actions| - 1]), actions[|actions| - 1];
    if t in s.pc {
      StepFacts(s, a, t);
      MovedJoin(s.pc[t]);
      ExitsActs(s, a, t);
    } else {
      Newcomer(s, a, t);
    }
  }

  lemma MovedJoin(pc: Pc)
    ensures forall pc' | Moved(pc, pc') :: JoinOf(pc') == JoinOf(pc)
  {
  }

  lemma ExitsActs(s: System, a: Action, t: Task)
    ensures Exits(s, a, t) || Joins(s, a, t) ==> Acts(s, a, t)
    ensures Exits(s, a, t) ==> a.Exit?
    ensures Joins(s, a, t) ==> a.JoinBegin?
  {
  }

  /** A task that does not exist yet takes no step, and starts outside `join`. */
  lemma Newcomer(s: System, a: Action, t: Task)
    requires Inv(s) && t !in s.pc
    ensures !Exits(s, a, t) && !Joins(s, a, t)
    ensures SamePassed(s, Next(s, a), t) && (t in Next(s, a).pc ==> Next(s, a).pc[t] == Plain)
  {
    hide Inv, Local, ExitStep, UnlockWakeStep, CasStep, TryLockStep, UnlockSwapStep, WaitAcquireStep, WaitEvalStep;
    hide WaitBlockStep, Sleep, Leave, Resched, IsIdle, SamePassed;
    NewStays(s, t);
    match a
    case Exit(c, code, choice) => NewExit(s, c, code, choice, t);
    case UnlockWake(c) => NewUnlock(s, c, t);
    case JoinBegin(c, of) => NewOther(s, a, t);
    case TimerFire(u) => NewOther(s, a, t);
    case Spawn(u) => NewOther(s, a, t);
    case _ =>
      IsLocal(s, a);
      hide Act;
      NewLocal(s, a.c, Act(s, a), t);
  }

  lemma NewStays(s: System, t: Task)
    ensures SamePassed(s, s, t)
  {
  }

  lemma NewOther(s: System, a: Action, t: Task)
    requires t !in s.pc && (a.JoinBegin? || a.TimerFire? || a.Spawn?)
    ensures SamePassed(s, Act(s, a), t) && (t in Act(s, a).pc ==> Act(s, a).pc[t] == Plain)
  {
    hide CasStep, TryLockStep, UnlockSwapStep, WaitAcquireStep, WaitEvalStep, ExitStep, WaitBlockStep, UnlockWakeStep, Sleep;
    hide Leave, Resched, Unblock, AddTask, IsIdle;
  }

  predicate SamePassed(s: System, s': System, t: Task) {
    (t in s'.passed <==> t in s.passed) && (t in s.passed ==> s'.passed[t] == s.passed[t])
  }

  lemma NewLocal(s: System, c: Cpu, s': System, t: Task)
    requires t !in s.pc && Local(s, c, s')
    ensures t !in s'.pc && SamePassed(s, s', t)
  {
    hide JoinOf;
  }

  lemma KeysOne(s: System, q: Queue)
    requires Inv(s)
    ensures NotifyOne(s, q).pc.Keys == s.pc.Keys && NotifyOne(s, q).passed == s.passed
  {
    hide Core, NoLostWakeup;
    if Waiting(s, q) != [] {
      QueueInOrder(s, q);
      FirstAsleep(s, q);
    }
  }

  lemma {:induction false} KeysAll(s: System, q: Queue)
    requires Inv(s) && s.lock == None
    ensures NotifyAll(s, q).pc.Keys == s.pc.Keys && NotifyAll(s, q).passed == s.passed
    decreases |Waiting(s, q)|
  {
    hide Inv;
    if Waiting(s, q) != [] {
      NotifyKeeps(s, q);
      KeysOne(s, q);
      KeysAll(NotifyOne(s, q), q);
    }
  }

  lemma NewExit(s: System, c: Cpu, code: int, choice: nat, t: Task)
    requires Inv(s) && t !in s.pc
    ensures t !in ExitStep(s, c, code, choice).pc && SamePassed(s, ExitStep(s, c, code, choice), t)
  {
    hide Inv, NotifyAll, NotifyOne, Leave, NoLostWakeup, IsIdle;
    if Ordinary(s, c) && s.lock == None {
      RunningTask(s, c);
      KeysAll(s, ExitQ(Me(s, c)));
      NotifyAllEffect(s, ExitQ(Me(s, c)), Me(s, c));
      KeysOne(NotifyAll(s, ExitQ(Me(s, c))), GcQ);
    }
  }

  lemma NewUnlock(s: System, c: Cpu, t: Task)
    requires Inv(s) && t !in s.pc
    ensures t !in UnlockWakeStep(s, c).pc && SamePassed(s, UnlockWakeStep(s, c), t)
  {
    hide Inv, NoLostWakeup;
    if Runs(s, c) && s.pc[Me(s, c)].UnlockNotify? && s.lock == None {
      var q := MutexQ(s.pc[Me(s, c)].m);
      QueueInOrder(s, q);
      assert Waiting(Goto(s, Me(s, c), Plain), q) == Waiting(s, q);
      if Waiting(s, q) != [] {
        FirstAsleep(s, q);
      }
    }
  }

  /** `join` returns with the code that the task it was asked to join passed to `exit`. */
  lemma JoinReturns(s0: System, actions: seq<Action>, t: Task)
    requires Initial(s0)
    ensures var s := Run(s0, actions);
      t in s.pc && s.pc[t].JoinDone? ==>
        JoinArgument(s0, actions, t) == Some(s.pc[t].of) && ExitArgument(s0, actions, s.pc[t].of) == Some(s.pc[t].code)
  {
    hide Run, JoinArgument, ExitArgument;
    var s := Run(s0, actions);
    if t in s.pc && s.pc[t].JoinDone? {
      Records(s0, actions, t);
      Records(s0, actions, s.pc[t].of);
      JoinSafe(s0, actions, t, t);
    }
  }

  /** The exit code of a task is the one it passed to `exit`, from that step on. */
  lemma {:induction false} ExitCodeStays(s0: System, actions: seq<Action>, i: nat, t: Task)
    requires Initial(s0) && i < |actions| && Exits(Run(s0, actions[..i]), actions[i], t)
    ensures var s := Run(s0, actions);
      t in s.exitCode && s.exitCode[t] == actions[i].code && t in s.pc && s.pc[t] == Dead
    decreases |actions|
  {
    hide Run, Initial, Exits, Acts, Moved, Next;
    var n := |actions| - 1;
    var s, a := Run(s0, actions[..n]), actions[n];
    Reached(s0, actions[..n]);
    LastStep(s0, actions);
    ExitsTask(s, a, t);
    if i < n {
      assert actions[..n][..i] == actions[..i];
      ExitCodeStays(s0, actions[..n], i, t);
      DeadStays(s, a, t);
    } else {
      StepFacts(s, a, t);
    }
  }

  lemma ExitsTask(s: System, a: Action, t: Task)
    ensures Exits(s, a, t) ==> t in s.pc && a.Exit?
  {
  }

  lemma DeadStays(s: System, a: Action, t: Task)
    requires Inv(s) && t in s.pc && s.pc[t] == Dead && t in s.exitCode
    ensures var s' := Next(s, a); t in s'.pc && s'.pc[t] == Dead && t in s'.exitCode && s'.exitCode[t] == s.exitCode[t]
  {
    hide Inv, Next, NoLostWakeup;
    AllTasksOk(s, t);
    StepFacts(s, a, t);
    if Acts(s, a, t) {
      RunningTask(s, a.c);
    }
  }

  // ----- whom an exit wakes -----

  lemma OneQueue(s: System, q: Queue, r: Queue)
    ensures var w := Waiting(s, q); Waiting(NotifyOne(s, q), r) == if r == q && w != [] then w[1..] else Waiting(s, r)
  {
  }

  lemma {:induction false} AllQueues(s: System, q: Queue, r: Queue)
    ensures Waiting(NotifyAll(s, q), r) == if r == q then [] else Waiting(s, r)
    decreases |Waiting(s, q)|
  {
    hide NotifyOne;
    if Waiting(s, q) != [] {
      OneQueue(s, q, q);
      OneQueue(s, q, r);
      AllQueues(NotifyOne(s, q), q, r);
    }
  }

  /** An exit wakes every joiner of the task and the first waiter of the collector, and nobody else. */
  lemma ExitWakesQueues(s: System, a: Action, t: Task, q: Queue)
    requires Inv(s) && Exits(s, a, t)
    ensures Waiting(Next(s, a), q)
      == if q == ExitQ(t) then [] else if q == GcQ && Waiting(s, q) != [] then Waiting(s, q)[1..] else Waiting(s, q)
  {
    hide Inv, NotifyAll, NotifyOne, Leave, NoLostWakeup, Waiting;
    RunningTask(s, a.c);
    ExitWakes(s, a.c, t, t);
    var s1 := NotifyAll(s, ExitQ(t));
    AllQueues(s, ExitQ(t), q);
    AllQueues(s, ExitQ(t), GcQ);
    OneQueue(s1, GcQ, q);
    QueuesKept(s, a, t, q);
  }

  lemma QueuesKept(s: System, a: Action, t: Task, q: Queue)
    requires Exits(s, a, t) && a.c in s.sched.idle && t in s.sched.state
    requires var s2 := NotifyOne(NotifyAll(s, ExitQ(t)), GcQ);
      a.c in s2.sched.idle && a.c in s2.sched.current && s2.sched.current[a.c] in s2.sched.state
    ensures Waiting(Next(s, a), q) == Waiting(NotifyOne(NotifyAll(s, ExitQ(t)), GcQ), q)
  {
    hide NotifyAll, NotifyOne, Leave;
  }

  // ----- joining a task that has exited -----

  /** `join` of a task that has exited goes through without sleeping and returns its exit code. */
  lemma JoinExited(s: System, c: Cpu, of: Task)
    requires Inv(s) && !s.halted && Ordinary(s, c) && s.lock == None
    requires of in s.sched.state && s.sched.state[of] == Exited
    ensures of in s.exitCode
    ensures At(Run(s, [JoinBegin(c, of), WaitAcquire(c), WaitEval(c), JoinLoad(c)]), c, JoinDone(of, s.exitCode[of]))
  {
    hide Inv, NoLostWakeup, Run, ExitStep, UnlockWakeStep, CasStep, TryLockStep, UnlockSwapStep, WaitBlockStep, Sleep, Leave, Resched;
    AllTasksOk(s, of);
    FourSteps(s, JoinBegin(c, of), WaitAcquire(c), WaitEval(c), JoinLoad(c));
    var s1 := Goto(s, Me(s, c), WaitEnter(ExitQ(of)));
    assert Next(s, JoinBegin(c, of)) == s1;
    WaitOver(s1, c, of);
  }

  lemma WaitOver(s: System, c: Cpu, of: Task)
    requires !s.halted && s.lock == None && At(s, c, WaitEnter(ExitQ(of)))
    requires of in s.sched.state && s.sched.state[of] == Exited && of in s.exitCode
    ensures At(Next(Next(Next(s, WaitAcquire(c)), WaitEval(c)), JoinLoad(c)), c, JoinDone(of, s.exitCode[of]))
  {
    hide Act;
    Entered(s, c, ExitQ(of));
    var s2 := Next(s, WaitAcquire(c));
    Evaluated(s2, c, of);
    Loaded(Next(s2, WaitEval(c)), c, of);
  }

  lemma Entered(s: System, c: Cpu, q: Queue)
    requires s.lock == None && At(s, c, WaitEnter(q))
    ensures var s' := Act(s, WaitAcquire(c));
      At(s', c, WaitTest(q)) && s'.exitCode == s.exitCode && s'.sched == s.sched && s'.halted == s.halted
  {
    hide ExitStep, UnlockWakeStep, CasStep, TryLockStep, UnlockSwapStep, WaitBlockStep, WaitEvalStep, Sleep, Leave, Resched;
  }

  lemma Evaluated(s: System, c: Cpu, of: Task)
    requires At(s, c, WaitTest(ExitQ(of))) && Condition(s, ExitQ(of))
    ensures var s' := Act(s, WaitEval(c)); At(s', c, JoinRead(of)) && s'.exitCode == s.exitCode && s'.halted == s.halted
  {
    hide ExitStep, UnlockWakeStep, CasStep, TryLockStep, UnlockSwapStep, WaitBlockStep, WaitAcquireStep, Sleep, Leave, Resched;
  }

  lemma Loaded(s: System, c: Cpu, of: Task)
    requires At(s, c, JoinRead(of)) && of in s.exitCode
    ensures At(Act(s, JoinLoad(c)), c, JoinDone(of, s.exitCode[of]))
  {
    hide ExitStep, UnlockWakeStep, CasStep, TryLockStep, UnlockSwapStep, WaitBlockStep, WaitAcquireStep, WaitEvalStep, Sleep;
    hide Leave, Resched;
  }
}
