/** The worker's concurrency permits: the semaphore, the set of running tasks and the table of
    tasks by id. A permit is free, handed to a woken dispatcher that has not resumed yet, or held
    by a running task. */
module TaskPermits {

  /** `active` maps each running task to its id (possibly empty). `spawned` and `finished` are history. */
  datatype Permits = Permits(
    limit: nat,
    free: nat,
    handed: nat,
    active: map<nat, string>,
    byId: map<string, nat>,
    spawned: set<nat>,
    finished: set<nat>)

  /** Everything after `acquire` returned, in one stretch: create, record, index. */
  function Spawned(p: Permits, task: nat, id: string): Permits {
    p.(active := p.active[task := id],
       byId := if id != "" then p.byId[id := task] else p.byId,
       spawned := p.spawned + {task})
  }

  /** `_on_task_done`: discard, pop the id, release. */
  function Done(p: Permits, task: nat): Permits
    requires task in p.active
  {
    var id := p.active[task];
    p.(active := p.active - {task},
       byId := if id != "" then p.byId - {id} else p.byId,
       free := p.free + 1,
       finished := p.finished + {task})
  }

  /** The heartbeat's status. */
  predicate Busy(p: Permits) { !(|p.active| < p.limit) }

  class WorkerTasks {
    const limit: nat
    var free: nat
    var handed: nat
    var activeTasks: map<nat, string>
    var tasksById: map<string, nat>
    ghost var spawned: set<nat>
    ghost var finished: set<nat>

    ghost function View(): Permits
      reads this
    {
      Permits(limit, free, handed, activeTasks, tasksById, spawned, finished)
    }

    method StartAcquired(task: nat, id: string)
      modifies this
      ensures View() == Spawned(old(View()), task, id)
    {
      activeTasks := activeTasks[task := id];
      if id != "" {
        tasksById := tasksById[id := task];
      }
      spawned := spawned + {task};
    }

    method OnTaskDone(task: nat, id: string)
      requires task in activeTasks && activeTasks[task] == id
      modifies this
      ensures View() == Done(old(View()), task)
    {
      activeTasks := activeTasks - {task};
      if id != "" {
        tasksById := tasksById - {id};
      }
      free := free + 1;
      finished := finished + {task};
    }

    method CurrentStatus() returns (busy: bool)
      ensures busy == Busy(View())
    {
      busy := !(|activeTasks| < limit);
    }
  }

  // ----- runs -----

  datatype Action =
    | Dispatch(task: nat, id: string)  // a free permit, taken without waiting
    | HandOver                         // a release wakes a waiting dispatcher
    | Resume(task: nat, id: string)    // the woken dispatcher starts its task
    | GiveBack                         // the woken dispatcher was cancelled
    | End(task: nat)                   // the done callback, however the task ended

  predicate Enabled(p: Permits, a: Action) {
    match a
    case Dispatch(task, _) => p.free > 0 && task !in p.spawned
    case HandOver => p.free > 0
    case Resume(task, _) => p.handed > 0 && task !in p.spawned
    case GiveBack => p.handed > 0
    case End(task) => task in p.active
  }

  function Step(p: Permits, a: Action): Permits
    requires Enabled(p, a)
  {
    match a
    case Dispatch(task, id) => Spawned(p.(free := p.free - 1), task, id)
    case HandOver => p.(free := p.free - 1, handed := p.handed + 1)
    case Resume(task, id) => Spawned(p.(handed := p.handed - 1), task, id)
    case GiveBack => p.(handed := p.handed - 1, free := p.free + 1)
    case End(task) => Done(p, task)
  }

  function Initial(limit: nat): Permits { Permits(limit, limit, 0, map[], map[], {}, {}) }

  ghost predicate Inv(p: Permits) {
    p.free + p.handed + |p.active| == p.limit
    && p.active.Keys == p.spawned - p.finished && p.finished <= p.spawned
  }

  /** No two running tasks share an id, and every id is non-empty. */
  ghost predicate FreshId(p: Permits, a: Action) {
    match a
    case Dispatch(_, id) => id != "" && forall t :: t in p.active ==> p.active[t] != id
    case Resume(_, id) => id != "" && forall t :: t in p.active ==> p.active[t] != id
    case _ => true
  }

  /** The table and the running set name each other. */
  ghost predicate Bijection(p: Permits) {
    (forall t :: t in p.active ==> p.active[t] in p.byId && p.byId[p.active[t]] == t)
    && (forall id :: id in p.byId ==> p.byId[id] in p.active && p.active[p.byId[id]] == id)
    && (forall t :: t in p.active ==> p.active[t] != "")
  }

  lemma StepKeepsInv(p: Permits, a: Action)
    requires Inv(p) && Enabled(p, a)
    ensures Inv(Step(p, a))
  {
    var q := Step(p, a);
    match a
    case Dispatch(task, id) => SpawnCounts(p, task, id);
    case Resume(task, id) => SpawnCounts(p, task, id);
    case End(task) =>
      assert q.active.Keys == p.active.Keys - {task};
      assert |q.active.Keys| == |p.active.Keys| - 1;
    case _ =>
  }

  lemma SpawnCounts(p: Permits, task: nat, id: string)
    requires Inv(p) && task !in p.spawned
    ensures |p.active[task := id]| == |p.active| + 1
    ensures p.active[task := id].Keys == (p.spawned + {task}) - p.finished
  {
    assert p.active[task := id].Keys == p.active.Keys + {task};
    assert task !in p.active.Keys;
    assert |p.active.Keys + {task}| == |p.active.Keys| + 1;
  }

  lemma StepKeepsBijection(p: Permits, a: Action)
    requires Inv(p) && Bijection(p) && Enabled(p, a) && FreshId(p, a)
    ensures Bijection(Step(p, a))
  {
    assert forall t :: t in p.active ==> t in p.active.Keys;
  }

  ghost predicate IsRun(states: seq<Permits>, actions: seq<Action>, limit: nat) {
    |states| == |actions| + 1 && states[0] == Initial(limit)
    && forall i :: 0 <= i < |actions| ==> Enabled(states[i], actions[i]) && states[i + 1] == Step(states[i], actions[i])
  }

  /** Main result: in every reachable state the permits add up to the limit, and the heartbeat
      says busy exactly when no permit is free or on its way to a dispatcher. */
  lemma {:induction false} PermitsConserved(states: seq<Permits>, actions: seq<Action>, limit: nat, n: nat)
    requires IsRun(states, actions, limit) && n < |states|
    ensures Inv(states[n]) && states[n].limit == limit
    ensures states[n].free + states[n].handed + |states[n].active| == limit
    ensures Busy(states[n]) <==> states[n].free == 0 && states[n].handed == 0
  {
    if n > 0 {
      PermitsConserved(states, actions, limit, n - 1);
      StepKeepsInv(states[n - 1], actions[n - 1]);
    }
  }

  /** A task ends at most once, so it returns its permit exactly once. */
  lemma {:induction false} FinishedStays(states: seq<Permits>, actions: seq<Action>, limit: nat, m: nat, n: nat)
    requires IsRun(states, actions, limit) && m <= n < |states|
    ensures states[m].finished <= states[n].finished
  {
    if m < n {
      FinishedStays(states, actions, limit, m, n - 1);
    }
  }

  lemma PermitReturnedOnce(states: seq<Permits>, actions: seq<Action>, limit: nat, m: nat, n: nat)
    requires IsRun(states, actions, limit) && m < n < |actions|
    requires actions[m].End? && actions[n].End?
    ensures actions[m].task != actions[n].task
  {
    PermitsConserved(states, actions, limit, n);
    FinishedStays(states, actions, limit, m + 1, n);
    assert actions[m].task in states[m + 1].finished;
    assert actions[n].task in states[n].active.Keys;
  }

  /** When every started task has ended, no permit is missing. */
  lemma AllReturned(states: seq<Permits>, actions: seq<Action>, limit: nat, n: nat)
    requires IsRun(states, actions, limit) && n < |states| && states[n].finished == states[n].spawned
    ensures states[n].free + states[n].handed == limit
  {
    PermitsConserved(states, actions, limit, n);
    assert states[n].active.Keys == {};
  }

  /** With distinct non-empty ids the table by id is a bijection with the running tasks. */
  lemma {:induction false} TableIsBijection(states: seq<Permits>, actions: seq<Action>, limit: nat, n: nat)
    requires IsRun(states, actions, limit) && n < |states|
    requires forall i :: 0 <= i < |actions| ==> FreshId(states[i], actions[i])
    ensures Bijection(states[n])
  {
    if n > 0 {
      TableIsBijection(states, actions, limit, n - 1);
      PermitsConserved(states, actions, limit, n - 1);
      StepKeepsBijection(states[n - 1], actions[n - 1]);
    }
  }
}
