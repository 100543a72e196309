/** Bounds on runs: termination, attempts per task, the running counter, the ready list. */
module TaskQueueAccounting {
  import opened Collections
  import opened StableSort
  import opened TaskQueueModel
  import opened TaskQueueSafety

  // ------------------------------------------------------------- termination

  function Rank(s: Status): nat {
    match s
    case WaitingDeps => 3
    case Pending => 2
    case Running => 1
    case _ => 0
  }

  function Weight(t: Task): nat {
    3 * Max(0, t.maxRetries - t.retriesUsed) + Rank(t.status)
  }

  function Total(keys: seq<TaskId>, ts: Tasks): nat
    requires forall k | k in keys :: k in ts
  {
    if keys == [] then 0 else Weight(ts[keys[0]]) + Total(keys[1..], ts)
  }

  function Measure(q: Queue): nat
    requires q.tasks.Valid()
  {
    Total(q.tasks.keys, q.tasks.data)
  }

  /** Events that do something to a task; clearing and no-op cancels do not count. */
  predicate Works(q: Queue, e: Event) {
    match e
    case StartEvent(_, _) => true
    case CompleteEvent(_, _, _) => true
    case FailEvent(_, _, _) => true
    case CancelEvent(id, _) => Cancellable(q, id)
    case AddEvent(_, _) => false
    case ClearEvent => false
  }

  lemma {:induction false} TotalMonotone(keys: seq<TaskId>, ts: Tasks, us: Tasks)
    requires forall k | k in keys :: k in ts && k in us
    requires forall k | k in keys :: Weight(us[k]) <= Weight(ts[k])
    ensures Total(keys, us) <= Total(keys, ts)
    ensures (exists k :: k in keys && Weight(us[k]) < Weight(ts[k])) ==> Total(keys, us) < Total(keys, ts)
  {
    if keys != [] {
      assert forall k :: k in keys <==> k == keys[0] || k in keys[1..];
      TotalMonotone(keys[1..], ts, us);
    }
  }

  lemma {:induction false} TotalFilter(keys: seq<TaskId>, ts: Tasks, us: Tasks, p: TaskId -> bool)
    requires forall k | k in keys :: k in ts
    requires forall k | k in keys && p(k) :: k in us && us[k] == ts[k]
    requires forall k | k in Filter(keys, p) :: k in us
    ensures Total(Filter(keys, p), us) <= Total(keys, ts)
  {
    if keys != [] {
      var rest := Filter(keys[1..], p);
      if p(keys[0]) {
        assert ([keys[0]] + rest)[1..] == rest;
        forall k | k in rest ensures k in us {
          assert k in Filter(keys, p);
        }
      }
      TotalFilter(keys[1..], ts, us, p);
    }
  }

  lemma {:induction false} TotalAppend(keys: seq<TaskId>, k: TaskId, ts: Tasks, us: Tasks)
    requires forall x | x in keys :: x in ts && x in us && us[x] == ts[x]
    requires k in us
    ensures Total(keys + [k], us) == Total(keys, ts) + Weight(us[k])
  {
    if keys == [] {
      assert Total([k], us) == Weight(us[k]) + Total([k][1..], us);
    } else {
      assert (keys + [k])[1..] == keys[1..] + [k];
      TotalAppend(keys[1..], k, ts, us);
    }
  }

  lemma StepKeepsValid(q: Queue, e: Event)
    requires q.tasks.Valid()
    ensures Apply(q, e).tasks.Valid()
  {
    if e.ClearEvent? {
      KeepValid(q.tasks, id => !IsDead(q, id));
    }
  }

  lemma {:induction false} ReachableValid(es: seq<Event>)
    ensures After(es).tasks.Valid()
  {
    if es != [] {
      ReachableValid(es[..|es| - 1]);
      StepKeepsValid(After(es[..|es| - 1]), es[|es| - 1]);
    }
  }

  /** No task gets heavier, and the one a working event names gets lighter. */
  lemma StepLightens(q: Queue, e: Event, k: TaskId)
    requires Enabled(q, e) && !e.AddEvent? && !e.ClearEvent? && k in q.tasks.data
    ensures k in Apply(q, e).tasks.data
    ensures Weight(Apply(q, e).tasks.data[k]) <= Weight(q.tasks.data[k])
    ensures Works(q, e) && k == e.id ==> Weight(Apply(q, e).tasks.data[k]) < Weight(q.tasks.data[k])
  {
  }

  /** Between additions every start, completion, failure and effective cancellation strictly
      lowers the measure, and nothing raises it. */
  lemma MeasureDrops(q: Queue, e: Event)
    requires q.tasks.Valid() && Enabled(q, e) && !e.AddEvent?
    ensures Apply(q, e).tasks.Valid()
    ensures Measure(Apply(q, e)) <= Measure(q) - if Works(q, e) then 1 else 0
  {
    StepKeepsValid(q, e);
    var ts, us := q.tasks.data, Apply(q, e).tasks.data;
    if e.ClearEvent? {
      TotalFilter(q.tasks.keys, ts, us, id => !IsDead(q, id));
    } else {
      forall k | k in q.tasks.keys ensures k in us && Weight(us[k]) <= Weight(ts[k]) {
        StepLightens(q, e, k);
      }
      if Works(q, e) {
        StepLightens(q, e, e.id);
      }
      TotalMonotone(q.tasks.keys, ts, us);
    }
  }

  /** How many working events a run has. */
  function Work(es: seq<Event>): nat {
    if es == [] then 0
    else
      Work(es[..|es| - 1]) + if Works(After(es[..|es| - 1]), es[|es| - 1]) then 1 else 0
  }

  /** Three events per permitted attempt of each task added. */
  function Budget(es: seq<Event>): nat {
    if es == [] then 0
    else
      Budget(es[..|es| - 1])
      + if es[|es| - 1].AddEvent? then 3 * (Max(0, es[|es| - 1].task.maxRetries) + 1) else 0
  }

  /** Every run does a bounded amount of work: at most three events per permitted attempt,
      and what the measure still holds is the part not yet spent. */
  lemma {:induction false} WorkIsBounded(es: seq<Event>)
    requires Legal(es)
    ensures After(es).tasks.Valid()
    ensures Work(es) + Measure(After(es)) <= Budget(es)
  {
    if es != [] {
      var q, e := After(es[..|es| - 1]), es[|es| - 1];
      WorkIsBounded(es[..|es| - 1]);
      StepKeepsValid(q, e);
      if e.AddEvent? {
        TotalAppend(q.tasks.keys, e.id, q.tasks.data, After(es).tasks.data);
      } else {
        MeasureDrops(q, e);
      }
    }
  }

  // ---------------------------------------------------------------- attempts

  /** How often `id` was started since it was last added. */
  function Starts(es: seq<Event>, id: TaskId): nat {
    if es == [] then 0
    else
      match es[|es| - 1]
      case AddEvent(k, _) => if k == id then 0 else Starts(es[..|es| - 1], id)
      case StartEvent(k, _) => Starts(es[..|es| - 1], id) + if k == id then 1 else 0
      case _ => Starts(es[..|es| - 1], id)
  }

  function Attempts(t: Task): int {
    t.retriesUsed + if t.startedAt.Some? then 1 else 0
  }

  lemma StepCountsAttempts(q: Queue, e: Event, id: TaskId)
    requires Inv(q) && Enabled(q, e) && id in q.tasks.data && id in Apply(q, e).tasks.data
    ensures Attempts(Apply(q, e).tasks.data[id])
         == Attempts(q.tasks.data[id]) + if e.StartEvent? && e.id == id then 1 else 0
  {
    assert FieldsAgree(q.tasks.data[id]);
  }

  lemma {:induction false} StartsAreAttempts(es: seq<Event>, id: TaskId)
    requires Legal(es) && id in After(es).tasks.data
    ensures Starts(es, id) == Attempts(After(es).tasks.data[id])
  {
    var before, e := es[..|es| - 1], es[|es| - 1];
    ReachableInv(before);
    if id in After(before).tasks.data {
      StartsAreAttempts(before, id);
      StepCountsAttempts(After(before), e, id);
    }
  }

  /** Attempts are counted exactly, never exceed the policy, and a dead letter used them all. */
  lemma AttemptsAreExact(es: seq<Event>, id: TaskId)
    requires Legal(es) && id in After(es).tasks.data
    ensures var t := After(es).tasks.data[id];
      && Starts(es, id) == t.retriesUsed + (if t.startedAt.Some? then 1 else 0)
      && Starts(es, id) <= Max(0, t.maxRetries) + 1
      && (t.status == DeadLetter ==> Starts(es, id) == Max(0, t.maxRetries) + 1)
  {
    StartsAreAttempts(es, id);
    ReachableInv(es);
    assert FieldsAgree(After(es).tasks.data[id]);
  }

  // --------------------------------------------------------- running counter

  /** `_running_count` is exact in every reachable state, so the clamp at zero never acts. */
  lemma ClampNeverActs(es: seq<Event>, id: TaskId)
    requires Legal(es)
    ensures After(es).running == |RunningIds(After(es).tasks.data)|
    ensures HasStatus(After(es), id, Running) ==> After(es).running >= 1
  {
    ReachableInv(es);
    if HasStatus(After(es), id, Running) {
      assert id in RunningIds(After(es).tasks.data);
    }
  }

  /** Off the protocol: starting keeps the invariant exactly for pending or unknown tasks. */
  lemma StartNeedsPending(q: Queue, id: TaskId, now: real)
    requires Inv(q)
    ensures Inv(Start(q, id, now)) <==> id !in q.tasks.data || q.tasks.data[id].status == Pending
  {
    if id in q.tasks.data {
      var t := q.tasks.data[id];
      var us := Start(q, id, now).tasks.data;
      assert DepsAgree(q.tasks.data, t) && FieldsAgree(t);
      if t.status == Pending {
        StartKeepsInv(q, id, now);
      } else if t.status == Running {
        assert RunningIds(us) == RunningIds(q.tasks.data);
      } else if t.status == WaitingDeps {
        UpdateKeepsDeps(q, id, us[id]);
        assert !DepsAgree(us, us[id]);
      } else {
        assert !FieldsAgree(us[id]);
      }
    }
  }

  /** Off the protocol: completing keeps the invariant exactly for running or unknown tasks,
      and for a repeated completion while nothing runs (the one case the clamp absorbs). */
  lemma CompleteNeedsRunning(q: Queue, id: TaskId, result: Option<string>, now: real)
    requires Inv(q)
    ensures Inv(Complete(q, id, result, now)) <==>
      id !in q.tasks.data
      || q.tasks.data[id].status == Running
      || (q.tasks.data[id].status == Completed && q.running == 0)
  {
    if id in q.tasks.data {
      var t := q.tasks.data[id];
      var us := Complete(q, id, result, now).tasks.data;
      assert DepsAgree(q.tasks.data, t) && FieldsAgree(t);
      if t.status == Running {
        CompleteKeepsInv(q, id, result, now);
      } else if t.status == Completed {
        RepeatedComplete(q, id, result, now);
      } else {
        assert us[id] == t.(status := Completed, result := result, completedAt := Some(now));
        assert !FieldsAgree(us[id]);
      }
    }
  }

  /** Off the protocol, with nothing running: a failure that the clamp absorbs. */
  predicate FailAbsorbed(q: Queue, id: TaskId)
    requires id in q.tasks.data
  {
    var t := q.tasks.data[id];
    match t.status
    case DeadLetter => true
    case Pending => t.retriesUsed < t.maxRetries
    case Cancelled => t.retriesUsed < t.maxRetries && DepsMet(q.tasks.data, t.deps)
    case Completed => forall k | k in q.tasks.data && Released(q.tasks.data[k].status) :: id !in q.tasks.data[k].deps
    case _ => false
  }

  /** Off the protocol: failing keeps the invariant exactly for running or unknown tasks, and while
      nothing runs in the cases that FailAbsorbed lists. */
  lemma FailNeedsRunning(q: Queue, id: TaskId, error: string, now: real)
    requires Inv(q)
    ensures Inv(Fail(q, id, error, now)) <==>
      id !in q.tasks.data
      || q.tasks.data[id].status == Running
      || (q.running == 0 && FailAbsorbed(q, id))
  {
    if id in q.tasks.data && q.tasks.data[id].status == Running {
      FailKeepsInv(q, id, error, now);
    } else if id in q.tasks.data {
      var ts, us := q.tasks.data, Fail(q, id, error, now).tasks.data;
      assert DepsAgree(ts, ts[id]) && FieldsAgree(ts[id]);
      assert RunningIds(us) == RunningIds(ts);
      if ts[id].status == Completed {
        FailedCompletion(q, id, error, now);
      } else {
        UpdateKeepsDeps(q, id, us[id]);
        forall k | k in us && k != id ensures DepsAgree(us, us[k]) && FieldsAgree(us[k]) {
          assert DepsAgree(ts, ts[k]) && FieldsAgree(ts[k]);
        }
        assert DepsAgree(us, us[id]) && FieldsAgree(us[id]) <==> FailAbsorbed(q, id);
      }
    }
  }

  /** Failing a completed task takes a completion back. */
  lemma FailedCompletion(q: Queue, id: TaskId, error: string, now: real)
    requires Inv(q) && HasStatus(q, id, Completed)
    ensures Inv(Fail(q, id, error, now)) <==> q.running == 0 && FailAbsorbed(q, id)
  {
    var ts, us := q.tasks.data, Fail(q, id, error, now).tasks.data;
    assert RunningIds(us) == RunningIds(ts);
    forall k | k in us
      ensures DepsAgree(us, us[k]) <==> !(Released(ts[k].status) && id in ts[k].deps)
      ensures FieldsAgree(us[k])
    {
      assert DepsAgree(ts, ts[k]) && FieldsAgree(ts[k]) && FieldsAgree(ts[id]);
      WithoutOne(ts, us, id, ts[k].deps);
    }
  }

  /** When `id` is the only task that is no longer completed, it is the only one to miss. */
  lemma WithoutOne(ts: Tasks, us: Tasks, id: TaskId, deps: seq<TaskId>)
    requires id in ts && ts[id].status == Completed
    requires id in us && us[id].status != Completed && us == ts[id := us[id]]
    ensures DepsMet(us, deps) <==> DepsMet(ts, deps) && id !in deps
  {
  }

  lemma RepeatedComplete(q: Queue, id: TaskId, result: Option<string>, now: real)
    requires Inv(q) && HasStatus(q, id, Completed)
    ensures Inv(Complete(q, id, result, now)) <==> q.running == 0
  {
    var ts, mid, us := q.tasks.data, Finish(q, id, result, now), Complete(q, id, result, now).tasks.data;
    forall k | k in us ensures DepsAgree(us, us[k]) && FieldsAgree(us[k]) {
      assert DepsAgree(ts, ts[k]) && FieldsAgree(ts[k]);
      SameCompletedSameDeps(ts, mid, ts[k].deps);
      UnblockKeepsDeps(mid, ts[k].deps);
    }
    assert RunningIds(us) == RunningIds(ts);
  }

  // -------------------------------------------------------------- ready list

  lemma ReadyOrderIsPreorder(ts: Tasks)
    ensures TotalPreorder(ReadyOrder(ts))
  {
    var leq := ReadyOrder(ts);
    assert forall x, y :: leq(x, y) == NoLaterThan(ts, x, y);
    forall x, y ensures leq(x, y) || leq(y, x) {
    }
    forall x, y, z | leq(x, y) && leq(y, z) ensures leq(x, z) {
    }
  }

  /** What the documentation of `get_ready_tasks` asks for. */
  predicate Runnable(q: Queue, id: TaskId) {
    && id in q.tasks.data
    && q.tasks.data[id].status in {Pending, WaitingDeps}
    && DepsMet(q.tasks.data, q.tasks.data[id].deps)
  }

  /** Position of `a` before `b` in the ready list is by priority, then creation time, then
      insertion. */
  ghost predicate Precedes(q: Queue, a: TaskId, b: TaskId) {
    && a in q.tasks.data && b in q.tasks.data
    && var t, u := q.tasks.data[a], q.tasks.data[b];
       || t.priority > u.priority
       || (t.priority == u.priority && t.createdAt < u.createdAt)
       || (t.priority == u.priority && t.createdAt == u.createdAt
           && exists i, j :: 0 <= i < j < |q.tasks.keys| && q.tasks.keys[i] == a && q.tasks.keys[j] == b)
  }

  lemma {:induction false} FilterReflectsOrder(keys: seq<TaskId>, p: TaskId -> bool, a: nat, b: nat)
    returns (i: nat, j: nat)
    requires a < b < |Filter(keys, p)|
    ensures i < j < |keys| && keys[i] == Filter(keys, p)[a] && keys[j] == Filter(keys, p)[b]
  {
    var rest := Filter(keys[1..], p);
    if !p(keys[0]) {
      i, j := FilterReflectsOrder(keys[1..], p, a, b);
      i, j := i + 1, j + 1;
    } else if a > 0 {
      i, j := FilterReflectsOrder(keys[1..], p, a - 1, b - 1);
      i, j := i + 1, j + 1;
    } else {
      FilterMembers(keys[1..], p);
      assert rest[b - 1] in rest;
      var c :| 0 <= c < |keys[1..]| && keys[1..][c] == rest[b - 1];
      i, j := 0, c + 1;
    }
  }

  /** The pending ids, once each. */
  lemma ReadyMembers(q: Queue)
    requires q.tasks.Valid()
    ensures Distinct(Ready(q))
    ensures forall id :: id in Ready(q) <==> HasStatus(q, id, Pending)
  {
    var p := id => HasStatus(q, id, Pending);
    FilterMembers(q.tasks.keys, p);
    FilterDistinct(q.tasks.keys, p);
    ReadyOrderIsPreorder(q.tasks.data);
    SortPermutes(PendingIds(q), ReadyOrder(q.tasks.data));
    PermutationDistinct(PendingIds(q), Ready(q));
  }

  lemma ReadyInOrder(q: Queue, i: nat, j: nat)
    requires q.tasks.Valid() && i < j < |Ready(q)|
    ensures Precedes(q, Ready(q)[i], Ready(q)[j])
  {
    var ts := q.tasks.data;
    var leq := ReadyOrder(ts);
    ReadyMembers(q);
    ReadyOrderIsPreorder(ts);
    SortIsStable(PendingIds(q), leq);
    var a, b := Ready(q)[i], Ready(q)[j];
    assert a in Ready(q) && b in Ready(q) && leq(a, b);
    if leq(b, a) {
      var c, d := TiesKeepOrder(PendingIds(q), leq, i, j);
      assert Before(ts[a], ts[b]) && Before(ts[b], ts[a]);
      var k, l := FilterReflectsOrder(q.tasks.keys, id => HasStatus(q, id, Pending), c, d);
    }
  }

  /** In every reachable state the ready list is exactly the runnable tasks, once each, by
      priority, then creation time, then insertion. */
  lemma ReadyIsRunnable(es: seq<Event>)
    requires Legal(es)
    ensures var q := After(es);
      && Distinct(Ready(q))
      && (forall id :: id in Ready(q) <==> Runnable(q, id))
      && (forall i, j :: 0 <= i < j < |Ready(q)| ==> Precedes(q, Ready(q)[i], Ready(q)[j]))
  {
    var q := After(es);
    ReachableInv(es);
    ReachableValid(es);
    ReadyMembers(q);
    forall id ensures id in Ready(q) <==> Runnable(q, id) {
      if id in q.tasks.data {
        assert DepsAgree(q.tasks.data, q.tasks.data[id]);
      }
    }
    forall i, j | 0 <= i < j < |Ready(q)| ensures Precedes(q, Ready(q)[i], Ready(q)[j]) {
      ReadyInOrder(q, i, j);
    }
  }

  // ------------------------------------------- the ready list, off the protocol

  /** What the documentation of `get_ready_tasks` promises. */
  ghost predicate ReadyPromise(q: Queue) {
    forall id :: id in Ready(q) <==> Runnable(q, id)
  }

  lemma ReadyPromiseIs(q: Queue)
    requires q.tasks.Valid()
    ensures ReadyPromise(q) <==> forall k | k in q.tasks.data ::
      && (q.tasks.data[k].status == Pending ==> DepsMet(q.tasks.data, q.tasks.data[k].deps))
      && (q.tasks.data[k].status == WaitingDeps ==> !DepsMet(q.tasks.data, q.tasks.data[k].deps))
  {
    ReadyMembers(q);
    forall k | k in q.tasks.data
      ensures (k in Ready(q) <==> Runnable(q, k)) <==>
        && (q.tasks.data[k].status == Pending ==> DepsMet(q.tasks.data, q.tasks.data[k].deps))
        && (q.tasks.data[k].status == WaitingDeps ==> !DepsMet(q.tasks.data, q.tasks.data[k].deps))
    {
    }
  }

  /** `id` is completed, and a pending task relies on that. */
  predicate ReliedOn(q: Queue, id: TaskId) {
    HasStatus(q, id, Completed) && exists k | k in q.tasks.data :: HasStatus(q, k, Pending) && id in q.tasks.data[k].deps
  }

  /** Taking `id` from its status to another that is not completed moves only dependencies on `id`. */
  lemma DepsAfterUpdate(q: Queue, id: TaskId, t: Task, k: TaskId)
    requires id in q.tasks.data && t.status != Completed && k in q.tasks.data
    ensures var us := Update(q, id, t).tasks.data;
      DepsMet(us, q.tasks.data[k].deps) <==>
        DepsMet(q.tasks.data, q.tasks.data[k].deps) && !(HasStatus(q, id, Completed) && id in q.tasks.data[k].deps)
  {
    if HasStatus(q, id, Completed) {
      WithoutOne(q.tasks.data, Update(q, id, t).tasks.data, id, q.tasks.data[k].deps);
    } else {
      UpdateKeepsDeps(q, id, t);
    }
  }

  /** The general case of the two lemmas below. */
  lemma ReadyAfterUpdate(q: Queue, id: TaskId, t: Task, running: int)
    requires Inv(q) && q.tasks.Valid() && id in q.tasks.data
    requires t.status in {Pending, Running, DeadLetter} && t.deps == q.tasks.data[id].deps
    ensures ReadyPromise(Update(q, id, t).(running := running)) <==>
      && (forall k | k in q.tasks.data && k != id && HasStatus(q, k, Pending) ::
            !(HasStatus(q, id, Completed) && id in q.tasks.data[k].deps))
      && (t.status == Pending ==>
            DepsMet(q.tasks.data, t.deps) && !(HasStatus(q, id, Completed) && id in t.deps))
  {
    var r := Update(q, id, t).(running := running);
    ReadyPromiseIs(r);
    forall k | k in q.tasks.data
      ensures DepsMet(r.tasks.data, q.tasks.data[k].deps) <==>
        DepsMet(q.tasks.data, q.tasks.data[k].deps) && !(HasStatus(q, id, Completed) && id in q.tasks.data[k].deps)
      ensures DepsAgree(q.tasks.data, q.tasks.data[k])
    {
      DepsAfterUpdate(q, id, t, k);
    }
  }

  /** `mark_running` on any task breaks the promise exactly by taking back a completion that a
      pending task relies on. */
  lemma ReadyAfterStart(q: Queue, id: TaskId, now: real)
    requires Inv(q) && q.tasks.Valid()
    ensures ReadyPromise(Start(q, id, now)) <==> !ReliedOn(q, id)
  {
    if id in q.tasks.data {
      ReadyAfterUpdate(q, id, Start(q, id, now).tasks.data[id], q.running + 1);
    } else {
      InvKeepsPromise(q);
    }
  }

  /** `mark_failed` on any task breaks it in this way too, and by retrying a task whose
      dependencies are not met: a waiting one, a cancelled one, or one that depends on itself. */
  lemma ReadyAfterFail(q: Queue, id: TaskId, error: string, now: real)
    requires Inv(q) && q.tasks.Valid()
    ensures ReadyPromise(Fail(q, id, error, now)) <==>
      && !ReliedOn(q, id)
      && (id in q.tasks.data && q.tasks.data[id].retriesUsed < q.tasks.data[id].maxRetries ==>
            && DepsMet(q.tasks.data, q.tasks.data[id].deps)
            && !(HasStatus(q, id, Completed) && id in q.tasks.data[id].deps))
  {
    if id in q.tasks.data {
      ReadyAfterUpdate(q, id, Fail(q, id, error, now).tasks.data[id], Max(0, q.running - 1));
    } else {
      InvKeepsPromise(q);
    }
  }

  /** `mark_completed` never breaks it, whatever the task was doing. */
  lemma ReadyAfterComplete(q: Queue, id: TaskId, result: Option<string>, now: real)
    requires Inv(q) && q.tasks.Valid()
    ensures ReadyPromise(Complete(q, id, result, now))
  {
    if id in q.tasks.data {
      var mid, us := Finish(q, id, result, now), Complete(q, id, result, now).tasks.data;
      ReadyPromiseIs(Complete(q, id, result, now));
      forall k | k in us
        ensures us[k].status == Pending ==> DepsMet(us, us[k].deps)
        ensures us[k].status == WaitingDeps ==> !DepsMet(us, us[k].deps)
      {
        assert DepsAgree(q.tasks.data, q.tasks.data[k]);
        UnblockKeepsDeps(mid, mid[k].deps);
        if q.tasks.data[k].status == Pending {
          FinishKeepsMet(q, id, result, now, mid[k].deps);
        }
      }
    } else {
      InvKeepsPromise(q);
    }
  }

  lemma InvKeepsPromise(q: Queue)
    requires Inv(q) && q.tasks.Valid()
    ensures ReadyPromise(q)
  {
    ReadyPromiseIs(q);
    forall k | k in q.tasks.data ensures DepsAgree(q.tasks.data, q.tasks.data[k]) {
    }
  }

  /** For instance, reporting the failure of a task that still waits puts it on the ready list
      although it may not run. */
  lemma FailedWaitingTaskIsReady(q: Queue, id: TaskId, error: string, now: real)
    requires Inv(q) && q.tasks.Valid() && HasStatus(q, id, WaitingDeps)
    requires q.tasks.data[id].retriesUsed < q.tasks.data[id].maxRetries
    ensures var r := Fail(q, id, error, now); id in Ready(r) && !Runnable(r, id)
  {
    var r := Fail(q, id, error, now);
    ReadyMembers(r);
    UpdateKeepsDeps(q, id, r.tasks.data[id]);
    assert DepsAgree(q.tasks.data, q.tasks.data[id]);
  }

  /** Such a state is reachable: one task that waits for an id which is not there. */
  lemma FailureBreaksReadyList(error: string, now: real) returns (es: seq<Event>)
    ensures Legal(es)
    ensures var r := Fail(After(es), "b", error, now); "b" in Ready(r) && !Runnable(r, "b")
  {
    var t := Task(0, 0.0, ["a"], 3, Pending, 0, None, None, None, None);
    var none: seq<Event> := [];
    es := none + [AddEvent("b", t)];
    assert es[..|es| - 1] == none && Legal(none) && After(none) == EMPTY;
    assert Enabled(EMPTY, es[0]);
    assert !DepsMet(EMPTY.tasks.data, t.deps) by {
      assert "a" in t.deps;
    }
    ReachableValid(es);
    ReachableInv(es);
    FailedWaitingTaskIsReady(After(es), "b", error, now);
  }
}
