/** The completely fair scheduler: tasks weighed by niceness, picked by least virtual runtime. */
module CompletelyFair {
  import Arith
  import opened Options

  const WEIGHT_POS: seq<int> :=
    [1024, 820, 655, 526, 423, 335, 272, 215, 172, 137, 110, 87, 70, 56, 45, 36, 29, 23, 18, 15]
  const WEIGHT_NEG: seq<int> :=
    [1024, 1277, 1586, 1991, 2501, 3121, 3906, 4904, 6100, 7620, 9548, 11916, 14949, 18705, 23254,
     29154, 36291, 46273, 56483, 71755, 88761]

  /** The most a tick can add to a virtual runtime: 1024 / 15, rounded up. */
  const MAX_STEP := 69

  function WeightOf(nice: int): (w: int)
    requires -20 <= nice <= 19
    ensures w >= 15 && (nice == 0 ==> w == 1024)
  {
    if nice >= 0 then WEIGHT_POS[nice] else WEIGHT_NEG[-nice]
  }

  /** The virtual time of `delta` ticks. */
  function Scaled(delta: nat, nice: int): nat
    requires -20 <= nice <= 19
  {
    if nice == 0 then delta else delta * 1024 / WeightOf(nice)
  }

  lemma TickGrows(delta: nat, w: nat)
    requires w >= 15
    ensures delta * 1024 / w <= (delta + 1) * 1024 / w <= delta * 1024 / w + MAX_STEP
  {
    var x := delta * 1024;
    Arith.AddMultiple(x, MAX_STEP, w);
    MonotoneDiv(x, x + 1024, w);
    MonotoneDiv(x + 1024, x + MAX_STEP * w, w);
  }

  lemma MonotoneDiv(a: nat, b: nat, d: nat)
    requires a <= b && d > 0
    ensures a / d <= b / d
  {
    if a / d > b / d {
      Arith.MulMonotone(b / d + 1, a / d, d);
    }
  }

  /** Each step of niceness costs between a sixth and a quarter of the weight. */
  lemma WeightsFall(a: int, b: int)
    requires -20 <= a < b <= 19
    ensures WeightOf(a) > WeightOf(b)
    ensures b == a + 1 ==> 119 * WeightOf(b) <= 100 * WeightOf(a) <= 130 * WeightOf(b)
    decreases b - a
  {
    if b > a + 1 {
      WeightsFall(a, b - 1);
      WeightsFall(b - 1, b);
    } else {
      Neighbours(a);
    }
  }

  lemma Neighbours(a: int)
    requires -20 <= a < 19
    ensures WeightOf(a) > WeightOf(a + 1) && 119 * WeightOf(a + 1) <= 100 * WeightOf(a) <= 130 * WeightOf(a + 1)
  {
    if a >= 0 {
      PositiveStep(a);
    } else {
      NegativeStep(-a - 1);
      assert WEIGHT_NEG[0] == WEIGHT_POS[0];
    }
  }

  predicate OneStep(more: int, less: int) {
    more > less && 119 * less <= 100 * more <= 130 * less
  }

  lemma PositiveStep(i: nat)
    requires i < 19
    ensures OneStep(WEIGHT_POS[i], WEIGHT_POS[i + 1])
  {
  }

  lemma NegativeStep(i: nat)
    requires i < 20
    ensures OneStep(WEIGHT_NEG[i + 1], WEIGHT_NEG[i])
  {
  }

  /** The nicer a task, the more virtual time its ticks cost. */
  lemma NicerCostsMore(delta: nat, a: int, b: int)
    requires -20 <= a <= b <= 19
    ensures Scaled(delta, a) <= Scaled(delta, b)
  {
    hide WeightOf;
    ByWeight(delta, a);
    ByWeight(delta, b);
    if a < b {
      WeightsFall(a, b);
      LargerDivisor(delta * 1024, WeightOf(b), WeightOf(a));
    }
  }

  lemma ByWeight(delta: nat, nice: int)
    requires -20 <= nice <= 19
    ensures Scaled(delta, nice) == delta * 1024 / WeightOf(nice)
  {
  }

  lemma LargerDivisor(x: nat, d: nat, e: nat)
    requires 0 < d <= e
    ensures x / e <= x / d
  {
    if x / e > x / d {
      Arith.Products(x / d + 1, x / e, d, e);
    }
  }

  lemma NotRun(nice: int)
    requires -20 <= nice <= 19
    ensures Scaled(0, nice) == 0
  {
  }

  class CFSTask {
    var initVruntime: int
    var delta: nat
    var nice: int
    var id: int

    ghost predicate Valid()
      reads this
    {
      -20 <= nice <= 19
    }

    function Vruntime(): int
      requires Valid()
      reads this
    {
      initVruntime + Scaled(delta, nice)
    }

    constructor ()
      ensures Valid() && Vruntime() == 0 && delta == 0
    {
      initVruntime, delta, nice, id := 0, 0, 0, 0;
    }

    method SetPriority(prio: int)
      requires Valid() && -20 <= prio <= 19
      modifies this
      ensures Valid() && nice == prio && Vruntime() == old(Vruntime()) && delta == 0 && id == old(id)
    {
      initVruntime := Vruntime();
      delta := 0;
      nice := prio;
    }

    method Tick()
      requires Valid()
      modifies this
      ensures Valid() && delta == old(delta) + 1
      ensures initVruntime == old(initVruntime) && nice == old(nice) && id == old(id)
      ensures old(Vruntime()) <= Vruntime() <= old(Vruntime()) + MAX_STEP
    {
      TickGrows(delta, WeightOf(nice));
      delta := delta + 1;
    }
  }

  type Key = (int, int)

  predicate AtMost(a: Key, b: Key) {
    a.0 < b.0 || (a.0 == b.0 && a.1 <= b.1)
  }

  ghost predicate IsLeast(keys: set<Key>, k: Key) {
    k in keys && forall j | j in keys :: AtMost(k, j)
  }

  lemma {:induction false} LeastExists(keys: set<Key>)
    requires keys != {}
    ensures exists k :: IsLeast(keys, k)
  {
    var x :| x in keys;
    var rest := keys - {x};
    if rest == {} {
      assert keys == {x};
      assert IsLeast(keys, x);
    } else {
      LeastExists(rest);
      var y :| IsLeast(rest, y);
      assert keys == rest + {x};
      assert IsLeast(keys, if AtMost(x, y) then x else y);
    }
  }

  /** The ready queue is an ordered map: its first key is its least. */
  method FirstKey(keys: set<Key>) returns (k: Option<Key>)
    ensures keys == {} ==> k == None
    ensures keys != {} ==> k.Some? && IsLeast(keys, k.value)
  {
    if keys == {} {
      return None;
    }
    LeastExists(keys);
    var x :| x in keys && forall j | j in keys :: AtMost(x, j);
    k := Some(x);
  }

  /** The minimum is the virtual runtime of the first key. */
  ghost predicate FirstIs(ready: map<Key, CFSTask>, min: Option<int>) {
    min.Some? && exists k :: IsLeast(ready.Keys, k) && k.0 == min.value
  }

  lemma FileNew(ready: map<Key, CFSTask>, k: Key, t: CFSTask)
    requires k !in ready
    ensures ready[k := t].Values == ready.Values + {t}
  {
    var m := ready[k := t];
    assert m[k] == t;
    forall v | v in ready.Values ensures v in m.Values {
      var j :| j in ready && ready[j] == v;
      assert m[j] == v;
    }
  }

  lemma Unfile(ready: map<Key, CFSTask>, k: Key)
    requires k in ready && forall j | j in ready && j != k :: ready[j] != ready[k]
    ensures (ready - {k}).Values == ready.Values - {ready[k]}
  {
    var m := ready - {k};
    forall v | v in ready.Values - {ready[k]} ensures v in m.Values {
      var j :| j in ready && ready[j] == v;
      assert m[j] == v;
    }
  }

  class CFScheduler {
    var ready: map<Key, CFSTask>
    var minVruntime: Option<int>
    var idPool: int

    /** Every ready task is filed under its own virtual runtime and id. */
    ghost predicate Valid()
      reads `ready, `idPool, ready.Values
    {
      forall k | k in ready :: ready[k].Valid() && k == (ready[k].Vruntime(), ready[k].id) && k.1 < idPool
    }

    constructor ()
      ensures Valid() && ready == map[] && minVruntime == None
    {
      ready, minVruntime, idPool := map[], None, 0;
    }

    /** The virtual runtime of the first key, if there is one. */
    method MinVruntime() returns (min: Option<int>)
      ensures if ready == map[] then min == None else FirstIs(ready, min)
    {
      var first := FirstKey(ready.Keys);
      min := if first.Some? then Some(first.value.0) else None;
    }

    /** Files a task at the current minimum; for a task that has not run this is its virtual runtime. */
    method AddTask(task: CFSTask)
      requires Valid() && task.Valid() && task !in ready.Values
      modifies this, task
      ensures var v := if old(minVruntime).None? then 0 else old(minVruntime).value;
        && ready == old(ready)[(v, old(idPool)) := task] && task.initVruntime == v && task.id == old(idPool)
      ensures task.delta == old(task.delta) && task.nice == old(task.nice) && idPool == old(idPool) + 1
      ensures FirstIs(ready, minVruntime) && ready.Values == old(ready.Values) + {task}
      ensures task.delta == 0 ==> Valid()
    {
      hide CFScheduler.Valid, FirstIs;
      if minVruntime.None? {
        minVruntime := Some(0);
      }
      File(task, minVruntime.value);
      minVruntime := MinVruntime();
    }

    /** Gives a task a virtual runtime and a new id, and files it under them. */
    method File(task: CFSTask, vruntime: int)
      requires Valid() && task.Valid() && task !in ready.Values
      modifies `ready, `idPool, task
      ensures ready == old(ready)[(vruntime, old(idPool)) := task] && (vruntime, old(idPool)) in ready
      ensures task.initVruntime == vruntime && task.id == old(idPool)
      ensures task.delta == old(task.delta) && task.nice == old(task.nice) && idPool == old(idPool) + 1
      ensures ready.Values == old(ready.Values) + {task}
      ensures task.delta == 0 ==> Valid()
    {
      hide Scaled;
      var taskid := idPool;
      idPool := idPool + 1;
      task.initVruntime := vruntime;
      task.id := taskid;
      FileNew(ready, (vruntime, taskid), task);
      ready := ready[(vruntime, taskid) := task];
      NotRun(task.nice);
    }

    /** Removes whatever task is filed under this task's key; for a queued task, the task itself. */
    method RemoveTask(task: CFSTask) returns (r: Option<CFSTask>)
      requires Valid() && task.Valid()
      modifies this
      ensures Valid() && idPool == old(idPool) && ready == old(ready) - {(task.Vruntime(), task.id)}
      ensures r == if (task.Vruntime(), task.id) in old(ready) then Some(old(ready)[(task.Vruntime(), task.id)]) else None
      ensures task in old(ready).Values <==> r == Some(task)
      ensures r == None ==> minVruntime == old(minVruntime)
      ensures r.Some? && ready == map[] ==> minVruntime == None
      ensures r.Some? && ready != map[] ==> FirstIs(ready, minVruntime)
    {
      var key := (task.Vruntime(), task.id);
      if key in ready {
        r := Some(ready[key]);
        ready := ready - {key};
        minVruntime := MinVruntime();
      } else {
        r := None;
      }
    }

    method PickNextTask() returns (r: Option<CFSTask>)
      requires Valid()
      modifies this
      ensures Valid() && minVruntime == old(minVruntime) && idPool == old(idPool)
      ensures r == None ==> old(ready) == map[] && ready == map[]
      ensures r.Some? ==> r.value in old(ready).Values && r.value.Valid()
      ensures r.Some? ==> ready == old(ready) - {(r.value.Vruntime(), r.value.id)}
      ensures r.Some? ==> ready.Values == old(ready.Values) - {r.value}
      ensures r.Some? ==> forall t | t in old(ready).Values :: t.Valid() && r.value.Vruntime() <= t.Vruntime()
    {
      var first := FirstKey(ready.Keys);
      if first.None? {
        return None;
      }
      r := Some(ready[first.value]);
      ready := ready - {first.value};
      Unfile(old(ready), first.value);
    }

    method PutPrevTask(prev: CFSTask)
      requires Valid() && prev.Valid() && prev !in ready.Values
      modifies this, prev
      ensures Valid() && minVruntime == old(minVruntime) && prev.Valid()
      ensures prev.Vruntime() == old(prev.Vruntime()) && prev.delta == old(prev.delta) && prev.nice == old(prev.nice)
      ensures prev.initVruntime == old(prev.initVruntime)
      ensures prev.id == old(idPool) && idPool == old(idPool) + 1
      ensures ready == old(ready)[(prev.Vruntime(), prev.id) := prev] && ready.Values == old(ready.Values) + {prev}
    {
      hide Scaled;
      var taskid := idPool;
      idPool := idPool + 1;
      prev.id := taskid;
      ready := ready[(prev.Vruntime(), taskid) := prev];
      FileNew(old(ready), (prev.Vruntime(), taskid), prev);
    }

    method TaskTick(current: CFSTask) returns (resched: bool)
      requires Valid() && current.Valid() && current !in ready.Values
      modifies current
      ensures Valid() && current.Valid() && current.delta == old(current.delta) + 1 && current.id == old(current.id)
      ensures current.nice == old(current.nice) && current.initVruntime == old(current.initVruntime)
      ensures old(current.Vruntime()) <= current.Vruntime() <= old(current.Vruntime()) + MAX_STEP
      ensures resched <==> minVruntime.None? || current.Vruntime() > minVruntime.value
    {
      current.Tick();
      resched := minVruntime.None? || current.Vruntime() > minVruntime.value;
    }

    method SetPriority(task: CFSTask, prio: int) returns (ok: bool)
      requires Valid() && task.Valid()
      modifies task
      ensures Valid() && task.Valid() && (ok <==> -20 <= prio <= 19)
      ensures task.nice == (if ok then prio else old(task.nice)) && task.delta == (if ok then 0 else old(task.delta))
      ensures task.Vruntime() == old(task.Vruntime()) && task.id == old(task.id)
    {
      ok := -20 <= prio <= 19;
      if ok {
        task.SetPriority(prio);
      }
    }
  }

  // ----- every run of a fixed set of tasks -----

  /** All tasks are accounted for once, the running one is least, and none is far ahead. */
  ghost predicate Fair(tasks: set<CFSTask>, sched: CFScheduler, cur: CFSTask)
    reads sched, sched.ready.Values, tasks
  {
    && sched.Valid() && sched.minVruntime == Some(0)
    && cur in tasks && cur !in sched.ready.Values && tasks == sched.ready.Values + {cur}
    && (forall t | t in tasks :: t.Valid())
    && 0 <= cur.Vruntime()
    && (forall t | t in tasks :: cur.Vruntime() <= t.Vruntime() <= cur.Vruntime() + MAX_STEP)
  }

  /** So all virtual runtimes lie within one step of each other. */
  lemma FairSpread(tasks: set<CFSTask>, sched: CFScheduler, cur: CFSTask)
    requires Fair(tasks, sched, cur)
    ensures forall t | t in tasks :: t.Valid()
    ensures forall t, u | t in tasks && u in tasks :: t.Vruntime() <= u.Vruntime() + MAX_STEP
  {
  }

  ghost function SetOf(q: seq<CFSTask>): set<CFSTask> {
    set t | t in q
  }

  datatype Op = Tick | Renice(task: CFSTask, prio: int)

  /** The scheduler holds all tasks but `out`, each with a virtual runtime from `least` up to a step more. */
  ghost predicate Holds(tasks: set<CFSTask>, sched: CFScheduler, out: set<CFSTask>, least: int)
    reads sched, sched.ready.Values, tasks
  {
    && sched.Valid() && sched.minVruntime == Some(0) && 0 <= least
    && out !! sched.ready.Values && tasks == sched.ready.Values + out
    && (forall t | t in tasks :: t.Valid() && least <= t.Vruntime() <= least + MAX_STEP)
  }

  method AddAll(sched: CFScheduler, tasks: seq<CFSTask>)
    requires sched.Valid() && sched.ready == map[] && sched.minVruntime == None && tasks != []
    requires forall t | t in tasks :: t.Valid() && t.delta == 0
    requires forall i, j | 0 <= i < j < |tasks| :: tasks[i] != tasks[j]
    modifies sched, tasks
    ensures Holds(SetOf(tasks), sched, {}, 0)
  {
    hide Scaled;
    for i := 0 to |tasks|
      invariant sched.Valid() && (if i == 0 then sched.minVruntime == None else sched.minVruntime == Some(0))
      invariant sched.ready.Values == SetOf(tasks[..i])
      invariant forall t | t in tasks :: t.Valid() && t.delta == 0
      invariant forall k | k in sched.ready :: k.0 == 0
    {
      hide CFScheduler.Valid;
      assert tasks[i] !in tasks[..i];
      sched.AddTask(tasks[i]);
      assert tasks[..i + 1] == tasks[..i] + [tasks[i]];
    }
    assert tasks[..|tasks|] == tasks;
  }

  /** Picks the next task to run. */
  method Pick(sched: CFScheduler, ghost tasks: set<CFSTask>, ghost least: int) returns (cur: CFSTask)
    requires Holds(tasks, sched, {}, least) && tasks != {}
    modifies sched
    ensures Fair(tasks, sched, cur)
  {
    hide Scaled, CFScheduler.Valid, CFSTask.Vruntime;
    var first := sched.PickNextTask();
    cur := first.value;
  }

  /** Fresh tasks, all added before the first pick. */
  method Start(sched: CFScheduler, tasks: seq<CFSTask>) returns (cur: CFSTask)
    requires sched.Valid() && sched.ready == map[] && sched.minVruntime == None && tasks != []
    requires forall t | t in tasks :: t.Valid() && t.delta == 0
    requires forall i, j | 0 <= i < j < |tasks| :: tasks[i] != tasks[j]
    modifies sched, tasks
    ensures Fair(SetOf(tasks), sched, cur)
  {
    hide Scaled, CFScheduler.Valid, Holds, Fair;
    AddAll(sched, tasks);
    assert tasks[0] in SetOf(tasks);
    cur := Pick(sched, SetOf(tasks), 0);
  }

  /** A tick, and a switch if it asks for one. */
  method RunTick(sched: CFScheduler, cur: CFSTask, ghost tasks: set<CFSTask>) returns (next: CFSTask)
    requires Fair(tasks, sched, cur)
    modifies sched, tasks
    ensures Fair(tasks, sched, next)
    ensures forall t | t in tasks ::
      t.delta == old(t.delta) + (if t == cur then 1 else 0) && t.nice == old(t.nice) && t.initVruntime == old(t.initVruntime)
    ensures forall t | t in tasks && t != cur :: t.Valid() && t.Vruntime() == old(t.Vruntime())
    ensures next != cur ==> cur.Valid() && cur.Vruntime() > 0
  {
    hide Scaled, CFScheduler.Valid, CFSTask.Vruntime;
    ghost var least := cur.Vruntime();
    var resched := sched.TaskTick(cur);
    next := cur;
    if resched {
      assert Holds(tasks, sched, {cur}, least);
      hide Fair;
      PutBack(sched, cur, tasks, least);
      next := Pick(sched, tasks, least);
    }
  }

  method PutBack(sched: CFScheduler, cur: CFSTask, ghost tasks: set<CFSTask>, ghost least: int)
    requires Holds(tasks, sched, {cur}, least)
    modifies sched, cur
    ensures Holds(tasks, sched, {}, least)
    ensures cur.delta == old(cur.delta) && cur.nice == old(cur.nice) && cur.initVruntime == old(cur.initVruntime)
    ensures cur.Valid() && cur.Vruntime() == old(cur.Vruntime())
  {
    hide Scaled, CFScheduler.Valid, CFSTask.Vruntime;
    sched.PutPrevTask(cur);
  }

  /** How often a task occurs in a list. */
  ghost function Times(q: seq<CFSTask>, t: CFSTask): nat {
    if q == [] then 0 else (if q[0] == t then 1 else 0) + Times(q[1..], t)
  }

  ghost predicate NeverReniced(ops: seq<Op>, t: CFSTask) {
    forall op | op in ops && op.Renice? :: op.task != t
  }

  function Ticks(ops: seq<Op>): nat {
    if ops == [] then 0 else (if ops[0].Tick? then 1 else 0) + Ticks(ops[1..])
  }

  /** In every run each tick charges the running task alone, and fairness holds throughout. The tasks
      that ran, tick by tick, are `ran`. */
  method Run(sched: CFScheduler, cur: CFSTask, ops: seq<Op>, ghost tasks: set<CFSTask>)
    returns (last: CFSTask, ghost ran: seq<CFSTask>)
    requires Fair(tasks, sched, cur) && forall op | op in ops && op.Renice? :: op.task in tasks
    modifies sched, tasks
    ensures Fair(tasks, sched, last)
    ensures |ran| == Ticks(ops) && forall t | t in ran :: t in tasks
    ensures forall t | t in tasks && NeverReniced(ops, t) ::
      t.delta == old(t.delta) + Times(ran, t) && t.nice == old(t.nice) && t.initVruntime == old(t.initVruntime)
    decreases |ops|
  {
    hide Fair, Scaled;
    if ops == [] {
      return cur, [];
    }
    CurrentIsTask(tasks, sched, cur);
    ghost var rest;
    match ops[0]
    case Tick =>
      var next := RunTick(sched, cur, tasks);
      last, rest := Run(sched, next, ops[1..], tasks);
      ran := [cur] + rest;
      assert ran[1..] == rest;
    case Renice(task, prio) =>
      assert ops[0] in ops;
      Reniced(sched, cur, task, prio, tasks);
      last, ran := Run(sched, cur, ops[1..], tasks);
  }

  lemma CurrentIsTask(tasks: set<CFSTask>, sched: CFScheduler, cur: CFSTask)
    requires Fair(tasks, sched, cur)
    ensures cur in tasks
  {
  }

  /** Ticks are shared in proportion to the weights: `b` gets at most the share of `a`, scaled by the
      weights, and what two spreads and the rounding allow. */
  lemma ShareBound(ia: int, da: nat, ta: nat, na: int, ib: int, db: nat, tb: nat, nb: int)
    requires -20 <= na <= 19 && -20 <= nb <= 19
    requires ia + Scaled(da, na) <= ib + Scaled(db, nb) + MAX_STEP
    requires ib + Scaled(db + tb, nb) <= ia + Scaled(da + ta, na) + MAX_STEP
    ensures tb * 1024 * WeightOf(na) <= ta * 1024 * WeightOf(nb) + 140 * (WeightOf(na) * WeightOf(nb))
  {
    var wa, wb := WeightOf(na), WeightOf(nb);
    ByWeight(da, na);
    ByWeight(da + ta, na);
    ByWeight(db, nb);
    ByWeight(db + tb, nb);
    hide Scaled, WeightOf;
    var a := Scaled(da + ta, na) - Scaled(da, na);
    var b := Scaled(db + tb, nb) - Scaled(db, nb);
    Growth(da, ta, wa);
    Growth(db, tb, wb);
    assert a * wa <= ta * 1024 + wa && tb * 1024 <= b * wb + wb && b <= a + 138;
    Shared(a, b, ta * 1024, tb * 1024, wa, wb);
    Regrouped(ta, wb);
    Regrouped(tb, wa);
  }

  lemma Regrouped(t: nat, w: nat)
    ensures t * 1024 * w == (t * 1024) * w
  {
  }

  /** What `t` more ticks add to `d`, up to rounding. */
  lemma Growth(d: nat, t: nat, w: nat)
    requires w > 0
    ensures var g := (d + t) * 1024 / w - d * 1024 / w; g * w <= t * 1024 + w && t * 1024 <= g * w + w
  {
    var x, y := d * 1024, (d + t) * 1024;
    assert x == x / w * w + x % w && y == y / w * w + y % w;
    Arith.Distribute(y / w, x / w, w);
  }

  lemma Shared(a: int, b: int, x: nat, y: nat, wa: nat, wb: nat)
    requires a * wa <= x + wa && y <= b * wb + wb && b <= a + 138
    ensures y * wa <= x * wb + 140 * (wa * wb)
  {
    Scale(b, a + 138, wb);
    Scale(y, (a + 139) * wb, wa);
    assert (a + 139) * wb * wa == a * wa * wb + 139 * (wa * wb) by { Expand(a, wb, wa); }
    Scale(a * wa, x + wa, wb);
    assert (x + wa) * wb == x * wb + wa * wb;
  }

  lemma Scale(a: int, b: int, d: nat)
    requires a <= b
    ensures a * d <= b * d
  {
  }

  lemma Expand(a: int, wb: nat, wa: nat)
    ensures (a + 139) * wb * wa == a * wa * wb + 139 * (wa * wb)
  {
    assert (a + 139) * wb == a * wb + 139 * wb;
    assert (a * wb + 139 * wb) * wa == a * wb * wa + 139 * wb * wa;
    Arith.Swap(a, wb, wa);
    Arith.Swap(139, wb, wa);
  }

  /** In every run from a fair state, tasks that keep their niceness get ticks in proportion to their
      weights, and the nicer of two no more than the other, up to a fixed bound. */
  method Shares(sched: CFScheduler, cur: CFSTask, ops: seq<Op>, ghost tasks: set<CFSTask>, ghost a: CFSTask, ghost b: CFSTask)
    returns (last: CFSTask, ghost ran: seq<CFSTask>)
    requires Fair(tasks, sched, cur) && (forall op | op in ops && op.Renice? :: op.task in tasks)
    requires a in tasks && b in tasks && NeverReniced(ops, a) && NeverReniced(ops, b)
    modifies sched, tasks
    ensures Fair(tasks, sched, last) && |ran| == Ticks(ops)
    ensures a.nice == old(a.nice) && -20 <= a.nice <= 19 && b.nice == old(b.nice) && -20 <= b.nice <= 19
    ensures Times(ran, b) * 1024 * WeightOf(a.nice)
      <= Times(ran, a) * 1024 * WeightOf(b.nice) + 140 * (WeightOf(a.nice) * WeightOf(b.nice))
    ensures a.nice <= b.nice ==> Times(ran, b) * 1024 <= Times(ran, a) * 1024 + 140 * WeightOf(b.nice)
  {
    hide Scaled, WeightOf, Times, Ticks, NeverReniced;
    FairSpread(tasks, sched, cur);
    ghost var ia, da, ib, db := a.initVruntime, a.delta, b.initVruntime, b.delta;
    last, ran := Run(sched, cur, ops, tasks);
    FairSpread(tasks, sched, last);
    ShareBound(ia, da, Times(ran, a), a.nice, ib, db, Times(ran, b), b.nice);
    if a.nice <= b.nice {
      Nicer(Times(ran, a), Times(ran, b), a.nice, b.nice);
    }
  }

  lemma Nicer(ta: nat, tb: nat, na: int, nb: int)
    requires -20 <= na <= nb <= 19
    requires tb * 1024 * WeightOf(na) <= ta * 1024 * WeightOf(nb) + 140 * (WeightOf(na) * WeightOf(nb))
    ensures tb * 1024 <= ta * 1024 + 140 * WeightOf(nb)
  {
    var wa, wb := WeightOf(na), WeightOf(nb);
    if na < nb {
      WeightsFall(na, nb);
    }
    hide WeightOf;
    Lighter(ta * 1024, tb * 1024, wa, wb);
  }

  lemma Lighter(x: nat, y: nat, wa: nat, wb: nat)
    requires 0 < wb <= wa && y * wa <= x * wb + 140 * (wa * wb)
    ensures y <= x + 140 * wb
  {
    Arith.Products(x, x, wb, wa);
    assert (x + 140 * wb) * wa == x * wa + 140 * wb * wa;
    Arith.Swap(140, wb, wa);
    Cancel(y, x + 140 * wb, wa);
  }

  lemma Cancel(x: int, y: int, d: nat)
    requires d > 0 && x * d <= y * d
    ensures x <= y
  {
    if x > y {
      Scale(y + 1, x, d);
    }
  }

  /** A new niceness, of any task at any time, leaves all virtual runtimes alone. */
  method Reniced(sched: CFScheduler, cur: CFSTask, task: CFSTask, prio: int, ghost tasks: set<CFSTask>)
    requires Fair(tasks, sched, cur) && task in tasks
    modifies task
    ensures Fair(tasks, sched, cur)
    ensures forall t | t in tasks :: t.Valid() && t.Vruntime() == old(t.Vruntime())
    ensures task.nice == if -20 <= prio <= 19 then prio else old(task.nice)
  {
    hide Scaled;
    var _ := sched.SetPriority(task, prio);
  }
}
