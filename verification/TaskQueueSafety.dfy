/** Dependency safety over every run of the client protocol. */
module TaskQueueSafety {
  import opened Collections
  import opened TaskQueueModel

  // --------------------------------------------------------------- invariant

  /** States a task reaches only after its dependencies completed. */
  predicate Released(s: Status) {
    s in {Pending, Running, Completed, DeadLetter}
  }

  /** Dependencies: released tasks have all of them completed, waiting tasks do not. */
  predicate DepsAgree(ts: Tasks, t: Task) {
    && (Released(t.status) ==> DepsMet(ts, t.deps))
    && (t.status == WaitingDeps ==> !DepsMet(ts, t.deps))
    && t.status != Failed
    && t.status != Timeout
  }

  /** Bookkeeping fields follow the status. */
  predicate FieldsAgree(t: Task) {
    && (t.startedAt.Some? <==> t.status in {Running, Completed, DeadLetter})
    && (t.completedAt.Some? <==> t.status in {Completed, DeadLetter, Cancelled})
    && (t.error.Some? <==> t.status == DeadLetter)
    && 0 <= t.retriesUsed <= Max(0, t.maxRetries)
    && (t.status == DeadLetter ==> t.retriesUsed == Max(0, t.maxRetries))
  }

  function RunningIds(ts: Tasks): set<TaskId> {
    set id | id in ts && ts[id].status == Running
  }

  predicate Inv(q: Queue) {
    && (forall id | id in q.tasks.data :: DepsAgree(q.tasks.data, q.tasks.data[id]))
    && (forall id | id in q.tasks.data :: FieldsAgree(q.tasks.data[id]))
    && q.running == |RunningIds(q.tasks.data)|
  }

  // ---------------------------------------------------- the steps keep it

  /** Changes that complete nothing and uncomplete nothing leave DepsMet alone. */
  lemma SameCompletedSameDeps(ts: Tasks, us: Tasks, deps: seq<TaskId>)
    requires forall id :: (id in ts && ts[id].status == Completed) <==> (id in us && us[id].status == Completed)
    ensures DepsMet(ts, deps) == DepsMet(us, deps)
  {
  }

  lemma UpdateKeepsDeps(q: Queue, id: TaskId, t: Task)
    requires id in q.tasks.data && q.tasks.data[id].status != Completed && t.status != Completed
    ensures forall deps :: DepsMet(Update(q, id, t).tasks.data, deps) == DepsMet(q.tasks.data, deps)
  {
    forall deps ensures DepsMet(Update(q, id, t).tasks.data, deps) == DepsMet(q.tasks.data, deps) {
      SameCompletedSameDeps(Update(q, id, t).tasks.data, q.tasks.data, deps);
    }
  }

  lemma AddKeepsInv(q: Queue, id: TaskId, t: Task)
    requires Inv(q) && id !in q.tasks.data && Fresh(t)
    ensures Inv(Add(q, id, t))
  {
    var ts, us := q.tasks.data, Add(q, id, t).tasks.data;
    assert RunningIds(us) == RunningIds(ts);
    forall k | k in us ensures DepsAgree(us, us[k]) {
      SameCompletedSameDeps(ts, us, us[k].deps);
    }
  }

  lemma CancelKeepsInv(q: Queue, id: TaskId, now: real)
    requires Inv(q)
    ensures Inv(Cancel(q, id, now))
  {
    if Cancellable(q, id) {
      var ts, us := q.tasks.data, Cancel(q, id, now).tasks.data;
      UpdateKeepsDeps(q, id, us[id]);
      assert RunningIds(us) == RunningIds(ts);
    }
  }

  lemma StartKeepsInv(q: Queue, id: TaskId, now: real)
    requires Inv(q) && HasStatus(q, id, Pending)
    ensures Inv(Start(q, id, now))
  {
    var ts, us := q.tasks.data, Start(q, id, now).tasks.data;
    UpdateKeepsDeps(q, id, us[id]);
    forall k | k in us ensures DepsAgree(us, us[k]) && FieldsAgree(us[k]) {
      assert DepsAgree(ts, ts[k]) && FieldsAgree(ts[k]);
    }
    assert RunningIds(us) == RunningIds(ts) + {id};
  }

  lemma FailKeepsInv(q: Queue, id: TaskId, error: string, now: real)
    requires Inv(q) && HasStatus(q, id, Running)
    ensures Inv(Fail(q, id, error, now))
  {
    var ts, us := q.tasks.data, Fail(q, id, error, now).tasks.data;
    UpdateKeepsDeps(q, id, us[id]);
    assert RunningIds(us) == RunningIds(ts) - {id};
    assert id in RunningIds(ts);
  }

  /** Unblocking completes nothing, so the dependencies it looks at do not move. */
  lemma UnblockKeepsDeps(ts: Tasks, deps: seq<TaskId>)
    ensures DepsMet(Unblock(ts), deps) == DepsMet(ts, deps)
  {
    SameCompletedSameDeps(ts, Unblock(ts), deps);
  }

  /** Completing keeps every met dependency met. */
  lemma FinishKeepsMet(q: Queue, id: TaskId, result: Option<string>, now: real, deps: seq<TaskId>)
    requires id in q.tasks.data && DepsMet(q.tasks.data, deps)
    ensures DepsMet(Finish(q, id, result, now), deps)
  {
  }

  lemma CompleteDepsAgree(q: Queue, id: TaskId, result: Option<string>, now: real, k: TaskId)
    requires Inv(q) && HasStatus(q, id, Running) && k in q.tasks.data
    ensures var us := Complete(q, id, result, now).tasks.data; DepsAgree(us, us[k])
  {
    var mid := Finish(q, id, result, now);
    var t := mid[k];
    UnblockKeepsDeps(mid, t.deps);
    if DepsMet(q.tasks.data, t.deps) {
      FinishKeepsMet(q, id, result, now, t.deps);
    }
    assert DepsAgree(q.tasks.data, q.tasks.data[k]);
  }

  lemma CompleteKeepsInv(q: Queue, id: TaskId, result: Option<string>, now: real)
    requires Inv(q) && HasStatus(q, id, Running)
    ensures Inv(Complete(q, id, result, now))
  {
    var ts, us := q.tasks.data, Complete(q, id, result, now).tasks.data;
    forall k | k in us ensures DepsAgree(us, us[k]) && FieldsAgree(us[k]) {
      CompleteDepsAgree(q, id, result, now, k);
      assert FieldsAgree(ts[k]);
    }
    assert RunningIds(us) == RunningIds(ts) - {id};
    assert id in RunningIds(ts);
  }

  lemma ClearKeepsInv(q: Queue)
    requires Inv(q)
    ensures Inv(ClearDead(q))
  {
    var ts, us := q.tasks.data, ClearDead(q).tasks.data;
    assert RunningIds(us) == RunningIds(ts);
    forall k | k in us ensures DepsAgree(us, us[k]) {
      SameCompletedSameDeps(ts, us, us[k].deps);
    }
  }

  lemma StepKeepsInv(q: Queue, e: Event)
    requires Inv(q) && Enabled(q, e)
    ensures Inv(Apply(q, e))
  {
    match e
    case AddEvent(id, t) => AddKeepsInv(q, id, t);
    case CancelEvent(id, now) => CancelKeepsInv(q, id, now);
    case StartEvent(id, now) => StartKeepsInv(q, id, now);
    case CompleteEvent(id, result, now) => CompleteKeepsInv(q, id, result, now);
    case FailEvent(id, error, now) => FailKeepsInv(q, id, error, now);
    case ClearEvent => ClearKeepsInv(q);
  }

  /** Dependency safety, exact accounting and consistent bookkeeping in every reachable state. */
  lemma {:induction false} ReachableInv(es: seq<Event>)
    requires Legal(es)
    ensures Inv(After(es))
  {
    if es == [] {
      assert RunningIds(EMPTY.tasks.data) == {};
    } else {
      ReachableInv(es[..|es| - 1]);
      StepKeepsInv(After(es[..|es| - 1]), es[|es| - 1]);
    }
  }
}
