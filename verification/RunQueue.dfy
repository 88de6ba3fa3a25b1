/** The run queue as the source has it: an object whose methods, called with its lock held,
    change task states, the ready queue, the wait queues and the current tasks step by step. */
module RunQueue {
  import opened Scheduling

  /** Names of wait queues. */
  type QueueId = nat

  /** The scheduler after the task on CPU `c` has exited and `woken` have been made ready. */
  ghost function AfterExit(s: Sched, woken: seq<Task>, c: Cpu, choice: nat): Sched {
    var s1 := UnblockAll(s, woken);
    if c in s1.idle && c in s1.current && s1.current[c] in s1.state then Leave(s1, c, Exited, choice) else s1
  }

  class AxRunQueue {
    /** The task whose exit stops the machine. */
    const init: Task
    var halted: bool
    var state: map<Task, TaskState>
    var idle: map<Cpu, Task>
    var current: map<Cpu, Task>
    /** The scheduler's queue, an intrusive list. */
    var ready: seq<Task>
    var queues: map<QueueId, seq<Task>>
    var exited: seq<Task>

    ghost function Snapshot(): Sched
      reads this
    {
      Sched(state, idle, current, ready)
    }

    /** Holds whenever the run-queue lock is free. */
    ghost predicate Valid()
      reads this
    {
      Placed(Snapshot()) && idle.Keys == current.Keys
    }

    ghost function Waiting(q: QueueId): seq<Task>
      reads `queues
    {
      if q in queues then queues[q] else []
    }

    constructor (init: Task, state: map<Task, TaskState>, idle: map<Cpu, Task>, current: map<Cpu, Task>, ready: seq<Task>)
      requires Placed(Sched(state, idle, current, ready)) && idle.Keys == current.Keys
      ensures Valid() && Snapshot() == Sched(state, idle, current, ready) && exited == [] && queues == map[]
      ensures this.init == init && !halted
    {
      this.state, this.idle, this.current, this.ready := state, idle, current, ready;
      this.init, halted, queues, exited := init, false, map[], [];
    }

    /** Pushing on the intrusive list demands that the task is in no list. */
    method PushReady(t: Task)
      requires t !in ready
      modifies this`ready
      ensures ready == old(ready) + [t]
    {
      ready := ready + [t];
    }

    method AddTask(t: Task)
      requires Valid() && t !in state
      modifies this`state, this`ready
      ensures Valid() && Snapshot() == Scheduling.AddTask(old(Snapshot()), t)
    {
      AddTaskPlaced(Snapshot(), t);
      state := state[t := Ready];
      PushReady(t);
    }

    method UnblockTask(t: Task)
      requires forall u | u in state && state[u] == Blocked :: u !in ready
      modifies this`state, this`ready
      ensures Snapshot() == Unblock(old(Snapshot()), t)
      ensures forall u | u in state && state[u] == Blocked :: u !in ready
    {
      if t in state && state[t] == Blocked {
        state := state[t := Ready];
        PushReady(t);
      }
    }

    /** Chooses the next task for this CPU; `choice` is the scheduling policy. */
    method PickNext(c: Cpu, choice: nat) returns (next: Task)
      requires c in idle
      modifies this`ready
      ensures next == if old(ready) == [] then idle[c] else old(ready)[Pick(old(ready), choice)]
      ensures ready == if old(ready) == [] then [] else RemoveAt(old(ready), Pick(old(ready), choice))
    {
      if ready == [] {
        next := idle[c];
      } else {
        var i := if choice < |ready| then choice else 0;
        next := ready[i];
        ready := ready[..i] + ready[i + 1..];
      }
    }

    /** The common tail of every switch. A task that still runs goes back to the queue first. */
    method Resched(c: Cpu, choice: nat)
      requires c in idle && c in current && current[c] in state
      requires state[current[c]] == Running ==> current[c] !in ready
      modifies this`state, this`ready, this`current
      ensures Snapshot() == Scheduling.Resched(old(Snapshot()), c, choice)
    {
      var prev := current[c];
      if state[prev] == Running {
        state := state[prev := Ready];
        if prev !in idle.Values {
          PushReady(prev);
        }
      }
      ghost var mid := PutPrev(old(Snapshot()), c);
      assert mid == Snapshot().(current := current - {c});
      var next := PickNext(c, choice);
      SwitchTo(c, next);
      assert current == mid.current[c := next];
    }

    method SwitchTo(c: Cpu, next: Task)
      modifies this`state, this`current
      ensures state == old(state)[next := Running] && current == old(current)[c := next]
    {
      state := state[next := Running];
      current := current[c := next];
    }

    method YieldCurrent(c: Cpu, choice: nat)
      requires Valid() && c in current
      modifies this`state, this`ready, this`current
      ensures Valid() && Snapshot() == Scheduling.Resched(old(Snapshot()), c, choice)
    {
      CurrentPlace(Snapshot(), c);
      ReschedPlaced(Snapshot(), c, choice);
      KeysKept(Snapshot(), c, choice);
      Resched(c, choice);
    }

    /** Blocks the current task and puts it into wait queue `q`. */
    method BlockCurrent(c: Cpu, q: QueueId, choice: nat)
      requires Valid() && c in current && current[c] !in idle.Values
      modifies this`state, this`ready, this`current, this`queues
      ensures Valid() && Snapshot() == Leave(old(Snapshot()), c, Blocked, choice)
      ensures Waiting(q) == old(Waiting(q)) + [old(current[c])]
      ensures forall r | r != q :: Waiting(r) == old(Waiting(r))
    {
      hide Placed, PutPrev, SwitchNext;
      CurrentPlace(Snapshot(), c);
      LeavePlaced(Snapshot(), c, Blocked, choice);
      KeysKept(SetState(Snapshot(), current[c], Blocked), c, choice);
      var curr := current[c];
      state := state[curr := Blocked];
      queues := queues[q := (if q in queues then queues[q] else []) + [curr]];
      Resched(c, choice);
    }

    /** Takes the first waiter, if any, and makes it ready. */
    method NotifyOneLocked(q: QueueId) returns (woken: bool)
      requires forall u | u in state && state[u] == Blocked :: u !in ready
      modifies this`state, this`ready, this`queues
      ensures woken == (old(Waiting(q)) != [])
      ensures Snapshot() == UnblockAll(old(Snapshot()), if woken then old(Waiting(q))[..1] else [])
      ensures Waiting(q) == if woken then old(Waiting(q))[1..] else []
      ensures forall r | r != q :: Waiting(r) == old(Waiting(r))
      ensures forall u | u in state && state[u] == Blocked :: u !in ready
    {
      woken := q in queues && queues[q] != [];
      if woken {
        var task := queues[q][0];
        queues := queues[q := queues[q][1..]];
        UnblockTask(task);
        OneStep(old(Snapshot()), task);
        assert old(Waiting(q))[..1] == [task];
      }
    }

    method NotifyAllLocked(q: QueueId)
      requires forall u | u in state && state[u] == Blocked :: u !in ready
      modifies this`state, this`ready, this`queues
      ensures Snapshot() == UnblockAll(old(Snapshot()), old(Waiting(q))) && Waiting(q) == []
      ensures forall r | r != q :: Waiting(r) == old(Waiting(r))
      ensures forall u | u in state && state[u] == Blocked :: u !in ready
    {
      while q in queues && queues[q] != []
        invariant UnblockAll(Snapshot(), Waiting(q)) == UnblockAll(old(Snapshot()), old(Waiting(q)))
        invariant forall r | r != q :: Waiting(r) == old(Waiting(r))
        invariant forall u | u in state && state[u] == Blocked :: u !in ready
        decreases |Waiting(q)|
      {
        var task := queues[q][0];
        queues := queues[q := queues[q][1..]];
        UnblockTask(task);
      }
    }

    /** The current task exits. The init task stops the machine; otherwise its joiners, in queue
        `joiners`, and one waiter of the collector's queue `gc` wake up, and the CPU switches
        away from it for good. */
    method ExitCurrent(c: Cpu, joiners: QueueId, gc: QueueId, choice: nat)
      requires Valid() && c in current && current[c] !in idle.Values && joiners != gc
      requires current[c] !in Waiting(joiners) && current[c] !in Waiting(gc)
      modifies this
      ensures Valid()
      ensures halted == (old(halted) || old(current[c]) == init)
      ensures old(current[c]) == init ==> Snapshot() == old(Snapshot()) && queues == old(queues) && exited == []
      ensures old(current[c]) != init ==>
        Snapshot() == AfterExit(old(Snapshot()), old(Woken(joiners, gc)), c, choice) && exited == old(exited) + [old(current[c])]
      ensures old(current[c]) != init ==>
        Waiting(joiners) == [] && Waiting(gc) == if old(Waiting(gc)) == [] then [] else old(Waiting(gc))[1..]
      ensures forall q | q != joiners && q != gc :: Waiting(q) == old(Waiting(q))
    {
      hide AfterExit;
      if current[c] == init {
        exited := [];
        halted := true;
      } else {
        ExitOrdinary(c, joiners, gc, choice);
      }
    }

    method ExitOrdinary(c: Cpu, joiners: QueueId, gc: QueueId, choice: nat)
      requires Valid() && c in current && current[c] !in idle.Values && joiners != gc
      requires current[c] !in Waiting(joiners) && current[c] !in Waiting(gc)
      modifies this`state, this`ready, this`current, this`queues, this`exited
      ensures Valid()
      ensures Snapshot() == AfterExit(old(Snapshot()), old(Woken(joiners, gc)), c, choice)
      ensures Waiting(joiners) == [] && Waiting(gc) == (if old(Waiting(gc)) == [] then [] else old(Waiting(gc))[1..])
      ensures forall q | q != joiners && q != gc :: Waiting(q) == old(Waiting(q))
      ensures exited == old(exited) + [old(current[c])]
    {
      hide Placed, PutPrev, SwitchNext, UnblockAll;
      ghost var s, woken := Snapshot(), Woken(joiners, gc);
      CurrentPlace(s, c);
      WakeCommutes(s, woken, current[c]);
      UnblockAllPlaced(s, woken);
      LeavePlaced(UnblockAll(s, woken), c, Exited, choice);
      KeysKept(SetState(UnblockAll(s, woken), current[c], Exited), c, choice);
      BlockedNotQueued(s);
      var curr := current[c];
      state := state[curr := Exited];
      assert Woken(joiners, gc) == woken;
      WakeForExit(curr, joiners, gc);
      assert Snapshot() == SetState(UnblockAll(s, woken), curr, Exited);
      Resched(c, choice);
    }

    /** All joiners and the first of the collector's queue. */
    ghost function Woken(joiners: QueueId, gc: QueueId): seq<Task>
      reads `queues
    {
      Waiting(joiners) + if Waiting(gc) == [] then [] else Waiting(gc)[..1]
    }

    method WakeForExit(curr: Task, joiners: QueueId, gc: QueueId)
      requires (forall u | u in state && state[u] == Blocked :: u !in ready) && joiners != gc
      modifies this`state, this`ready, this`queues, this`exited
      ensures Snapshot() == UnblockAll(old(Snapshot()), old(Woken(joiners, gc)))
      ensures Waiting(joiners) == [] && Waiting(gc) == (if old(Waiting(gc)) == [] then [] else old(Waiting(gc))[1..])
      ensures forall q | q != joiners && q != gc :: Waiting(q) == old(Waiting(q))
      ensures exited == old(exited) + [curr]
    {
      hide UnblockAll;
      ghost var s, first := Snapshot(), Waiting(joiners);
      ghost var second := if Waiting(gc) == [] then [] else Waiting(gc)[..1];
      NotifyAllLocked(joiners);
      exited := exited + [curr];
      var _ := NotifyOneLocked(gc);
      UnblockAppend(s, first, second);
    }
  }

  lemma BlockedNotQueued(s: Sched)
    requires Placed(s)
    ensures forall u | u in s.state && s.state[u] == Blocked :: u !in s.ready
  {
    forall u | u in s.state && s.state[u] == Blocked ensures u !in s.ready {
      assert InPlace(s, u);
    }
  }

  lemma KeysKept(s: Sched, c: Cpu, choice: nat)
    requires c in s.idle && c in s.current && s.current[c] in s.state
    ensures var s' := Scheduling.Resched(s, c, choice); s'.idle == s.idle && s'.current.Keys == s.current.Keys
  {
  }

  lemma OneStep(s: Sched, t: Task)
    ensures UnblockAll(s, [t]) == Unblock(s, t)
  {
    assert UnblockAll(Unblock(s, t), [t][1..]) == Unblock(s, t);
  }

  lemma UnblockAppend(s: Sched, q: seq<Task>, r: seq<Task>)
    ensures UnblockAll(UnblockAll(s, q), r) == UnblockAll(s, q + r)
    decreases |q|
  {
    if q == [] {
      assert q + r == r;
    } else {
      assert (q + r)[1..] == q[1..] + r;
      UnblockAppend(Unblock(s, q[0]), q[1..], r);
    }
  }
}
