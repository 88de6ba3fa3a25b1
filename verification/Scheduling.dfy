/** Task states and the run queue on any number of CPUs. Every function here is one critical
    section of the run-queue lock, which stays held across the context switch. */
module Scheduling {

  type Task = nat

  type Cpu = nat

  datatype TaskState = Running | Ready | Blocked | Exited

  /** Task states, each CPU's idle and current task, and the scheduler's ready queue. */
  datatype Sched = Sched(
    state: map<Task, TaskState>,
    idle: map<Cpu, Task>,
    current: map<Cpu, Task>,
    ready: seq<Task>)

  predicate IsIdle(s: Sched, t: Task) {
    t in s.idle.Values
  }

  ghost predicate OnCpu(current: map<Cpu, Task>, t: Task) {
    exists c :: c in current && current[c] == t
  }

  /** The one place of a task: on a CPU while running, in the ready queue while ready unless it
      is an idle task, and in neither otherwise. */
  ghost predicate InPlace(s: Sched, t: Task)
    requires t in s.state
  {
    match s.state[t]
    case Running => OnCpu(s.current, t) && t !in s.ready
    case Ready => !OnCpu(s.current, t) && (t in s.ready <==> !IsIdle(s, t))
    case _ => !OnCpu(s.current, t) && t !in s.ready && !IsIdle(s, t)
  }

  ghost predicate NoDuplicates(q: seq<Task>) {
    forall i, j | 0 <= i < j < |q| :: q[i] != q[j]
  }

  ghost predicate Injective(m: map<Cpu, Task>) {
    forall c, d | c in m && d in m && m[c] == m[d] :: c == d
  }

  /** An idle task runs on no CPU but its own. */
  ghost predicate IdleAtHome(s: Sched) {
    forall c, d | c in s.current && d in s.idle && s.current[c] == s.idle[d] :: c == d
  }

  /** No CPU shares its task with another, and the tables name only tasks that exist. While a CPU
      switches it has no current task. */
  ghost predicate Seated(s: Sched) {
    && s.current.Keys <= s.idle.Keys && Injective(s.idle) && Injective(s.current) && IdleAtHome(s)
    && (forall c | c in s.idle :: s.idle[c] in s.state)
    && (forall c | c in s.current :: s.current[c] in s.state)
  }

  ghost predicate Queued(s: Sched) {
    NoDuplicates(s.ready) && forall t | t in s.ready :: t in s.state
  }

  /** Every task is in its place, on at most one CPU and at most once in the queue. */
  ghost predicate Placed(s: Sched) {
    Seated(s) && Queued(s) && forall t | t in s.state :: InPlace(s, t)
  }

  // ----- operations -----

  function RemoveAt(q: seq<Task>, i: nat): seq<Task>
    requires i < |q|
  {
    q[..i] + q[i + 1..]
  }

  /** The queue position of the task that the scheduling policy picks. */
  function Pick(q: seq<Task>, choice: nat): nat {
    if choice < |q| then choice else 0
  }

  function SetState(s: Sched, t: Task, st: TaskState): Sched {
    s.(state := s.state[t := st])
  }

  /** Takes the current task off its CPU: back to the queue if it still runs. */
  function PutPrev(s: Sched, c: Cpu): Sched
    requires c in s.current && s.current[c] in s.state
  {
    var prev := s.current[c];
    var off := s.(current := s.current - {c});
    if s.state[prev] != Running then off
    else if IsIdle(s, prev) then SetState(off, prev, Ready)
    else SetState(off, prev, Ready).(ready := s.ready + [prev])
  }

  /** Takes the picked task, or this CPU's idle task if none is ready, and switches to it. */
  function SwitchNext(s: Sched, c: Cpu, choice: nat): Sched
    requires c in s.idle
  {
    if s.ready == [] then
      SetState(s, s.idle[c], Running).(current := s.current[c := s.idle[c]])
    else
      var i := Pick(s.ready, choice);
      SetState(s, s.ready[i], Running).(current := s.current[c := s.ready[i]], ready := RemoveAt(s.ready, i))
  }

  function Resched(s: Sched, c: Cpu, choice: nat): Sched
    requires c in s.idle && c in s.current && s.current[c] in s.state
  {
    SwitchNext(PutPrev(s, c), c, choice)
  }

  /** The current task leaves the CPU in state `st`: it blocks or exits. */
  function Leave(s: Sched, c: Cpu, st: TaskState, choice: nat): Sched
    requires c in s.idle && c in s.current && s.current[c] in s.state
  {
    Resched(SetState(s, s.current[c], st), c, choice)
  }

  function Unblock(s: Sched, t: Task): Sched {
    if t in s.state && s.state[t] == Blocked then SetState(s, t, Ready).(ready := s.ready + [t]) else s
  }

  function AddTask(s: Sched, t: Task): Sched {
    if t in s.state then s else SetState(s, t, Ready).(ready := s.ready + [t])
  }

  // ----- every operation keeps every task placed -----

  lemma OffCpu(current: map<Cpu, Task>, c: Cpu, t: Task)
    requires Injective(current) && c in current
    ensures OnCpu(current - {c}, t) <==> OnCpu(current, t) && t != current[c]
  {
    var rest := current - {c};
    if OnCpu(current, t) && t != current[c] {
      var d :| d in current && current[d] == t;
      assert d in rest && rest[d] == t;
    }
  }

  lemma OntoCpu(current: map<Cpu, Task>, c: Cpu, u: Task, t: Task)
    requires c !in current
    ensures OnCpu(current[c := u], t) <==> OnCpu(current, t) || t == u
  {
    var more := current[c := u];
    if OnCpu(current, t) {
      var d :| d in current && current[d] == t;
      assert d in more && more[d] == t;
    }
    assert c in more && more[c] == u;
  }

  /** A running task may leave its CPU: to the queue if it is an ordinary task that stays ready. */
  lemma TakeOff(s: Sched, c: Cpu, st: TaskState)
    requires Placed(s) && c in s.current && st != Running && (IsIdle(s, s.current[c]) ==> st == Ready)
    ensures var t := s.current[c];
            var off := SetState(s.(current := s.current - {c}), t, st);
            Placed(if st == Ready && !IsIdle(s, t) then off.(ready := s.ready + [t]) else off)
  {
    var t := s.current[c];
    var off := SetState(s.(current := s.current - {c}), t, st);
    var s' := if st == Ready && !IsIdle(s, t) then off.(ready := s.ready + [t]) else off;
    CurrentPlace(s, c);
    assert Seated(s');
    assert Queued(s');
    hide Seated, Queued;
    forall u | u in s'.state ensures InPlace(s', u) {
      TakeOffTask(s, c, st, u);
    }
  }

  lemma CurrentPlace(s: Sched, c: Cpu)
    requires Placed(s) && c in s.current
    ensures c in s.idle && s.current[c] in s.state && s.state[s.current[c]] == Running && s.current[c] !in s.ready
  {
    assert OnCpu(s.current, s.current[c]);
    assert InPlace(s, s.current[c]);
  }

  lemma TakeOffTask(s: Sched, c: Cpu, st: TaskState, u: Task)
    requires Placed(s) && c in s.current && st != Running && (IsIdle(s, s.current[c]) ==> st == Ready) && u in s.state
    ensures var t := s.current[c];
            var off := SetState(s.(current := s.current - {c}), t, st);
            InPlace(if st == Ready && !IsIdle(s, t) then off.(ready := s.ready + [t]) else off, u)
  {
    CurrentPlace(s, c);
    assert InPlace(s, u);
    OffCpu(s.current, c, u);
    hide OnCpu;
  }

  /** A free CPU may seat a task that is on none, unless it is the idle task of another. */
  lemma SeatTask(s: Sched, c: Cpu, t: Task)
    requires Seated(s) && c in s.idle && c !in s.current && t in s.state && !OnCpu(s.current, t)
    requires IsIdle(s, t) ==> t == s.idle[c]
    ensures Seated(SetState(s, t, Running).(current := s.current[c := t]))
  {
  }

  /** A free CPU may start its idle task. */
  lemma StartIdle(s: Sched, c: Cpu)
    requires Placed(s) && c in s.idle && c !in s.current && s.state[s.idle[c]] == Ready
    ensures Placed(SetState(s, s.idle[c], Running).(current := s.current[c := s.idle[c]]))
  {
    var t := s.idle[c];
    var on := SetState(s, t, Running).(current := s.current[c := t]);
    assert InPlace(s, t) && IsIdle(s, t);
    SeatTask(s, c, t);
    hide Seated;
    forall u | u in on.state ensures InPlace(on, u) {
      StartTask(s, c, t, s.ready, u);
    }
  }

  /** A free CPU may start a task from the ready queue. */
  lemma StartReady(s: Sched, c: Cpu, i: nat)
    requires Placed(s) && c in s.idle && c !in s.current && i < |s.ready|
    ensures Placed(SetState(s, s.ready[i], Running).(current := s.current[c := s.ready[i]], ready := RemoveAt(s.ready, i)))
  {
    var t := s.ready[i];
    var s' := SetState(s, t, Running).(current := s.current[c := t], ready := RemoveAt(s.ready, i));
    ReadyPlace(s, t);
    RemoveOne(s.ready, i);
    SeatTask(s, c, t);
    assert Queued(s');
    hide Seated, Queued, RemoveAt;
    forall u | u in s'.state ensures InPlace(s', u) {
      StartTask(s, c, t, RemoveAt(s.ready, i), u);
    }
  }

  lemma ReadyPlace(s: Sched, t: Task)
    requires Placed(s) && t in s.ready
    ensures t in s.state && s.state[t] == Ready && !OnCpu(s.current, t) && !IsIdle(s, t)
  {
    assert InPlace(s, t);
  }

  lemma StartTask(s: Sched, c: Cpu, t: Task, ready: seq<Task>, u: Task)
    requires t in s.state && s.state[t] == Ready && c !in s.current && u in s.state && InPlace(s, u) && InPlace(s, t)
    requires u in ready <==> u in s.ready && u != t
    ensures InPlace(SetState(s, t, Running).(current := s.current[c := t], ready := ready), u)
  {
    OntoCpu(s.current, c, t, u);
    hide OnCpu;
  }

  lemma RemoveOne(q: seq<Task>, i: nat)
    requires i < |q| && NoDuplicates(q)
    ensures NoDuplicates(RemoveAt(q, i))
    ensures forall t :: t in RemoveAt(q, i) <==> t in q && t != q[i]
  {
    var r := RemoveAt(q, i);
    forall t | t in q && t != q[i] ensures t in r {
      var j :| 0 <= j < |q| && q[j] == t;
      assert r[if j < i then j else j - 1] == t;
    }
  }

  lemma ReschedPlaced(s: Sched, c: Cpu, choice: nat)
    requires Placed(s) && c in s.current
    ensures Placed(Resched(s, c, choice))
  {
    assert OnCpu(s.current, s.current[c]);
    assert InPlace(s, s.current[c]);
    TakeOff(s, c, Ready);
    SwitchPlaced(PutPrev(s, c), c, choice);
  }

  lemma SwitchPlaced(s: Sched, c: Cpu, choice: nat)
    requires Placed(s) && c in s.idle && c !in s.current
    ensures Placed(SwitchNext(s, c, choice))
  {
    if s.ready == [] {
      IdleIsReady(s, c);
      StartIdle(s, c);
    } else {
      StartReady(s, c, Pick(s.ready, choice));
    }
  }

  lemma IdleIsReady(s: Sched, c: Cpu)
    requires Placed(s) && c in s.idle && c !in s.current
    ensures s.state[s.idle[c]] == Ready
  {
    assert IsIdle(s, s.idle[c]);
    assert InPlace(s, s.idle[c]);
  }

  lemma LeavePlaced(s: Sched, c: Cpu, st: TaskState, choice: nat)
    requires Placed(s) && c in s.current && !IsIdle(s, s.current[c]) && st in {Blocked, Exited}
    ensures Placed(Leave(s, c, st, choice))
  {
    TakeOff(s, c, st);
    SwitchPlaced(PutPrev(SetState(s, s.current[c], st), c), c, choice);
  }

  lemma UnblockPlaced(s: Sched, t: Task)
    requires Placed(s)
    ensures Placed(Unblock(s, t))
  {
    var s' := Unblock(s, t);
    forall u | u in s'.state ensures InPlace(s', u) {
      assert InPlace(s, u);
    }
  }

  lemma AddTaskPlaced(s: Sched, t: Task)
    requires Placed(s)
    ensures Placed(AddTask(s, t))
  {
    var s' := AddTask(s, t);
    forall u | u in s'.state ensures InPlace(s', u) {
      if u != t {
        assert InPlace(s, u);
      }
    }
  }

  // ----- waking several tasks -----

  function UnblockAll(s: Sched, q: seq<Task>): Sched
    decreases |q|
  {
    if q == [] then s else UnblockAll(Unblock(s, q[0]), q[1..])
  }

  lemma UnblockAllPlaced(s: Sched, q: seq<Task>)
    requires Placed(s)
    ensures var s' := UnblockAll(s, q);
            && Placed(s') && s'.current == s.current && s'.idle == s.idle && s'.state.Keys == s.state.Keys
            && forall u | u in s.state && s.state[u] != Blocked :: s'.state[u] == s.state[u]
    decreases |q|
  {
    hide Placed;
    if q != [] {
      UnblockPlaced(s, q[0]);
      UnblockAllPlaced(Unblock(s, q[0]), q[1..]);
    }
  }

  /** Waking other tasks commutes with marking this one exited. */
  lemma WakeCommutes(s: Sched, q: seq<Task>, t: Task)
    requires t in s.state && s.state[t] == Running && t !in q
    ensures UnblockAll(SetState(s, t, Exited), q) == SetState(UnblockAll(s, q), t, Exited)
    decreases |q|
  {
    if q != [] {
      var s1, s2 := Unblock(s, q[0]), Unblock(SetState(s, t, Exited), q[0]);
      assert s2 == SetState(s1, t, Exited);
      WakeCommutes(s1, q[1..], t);
    }
  }
}
