/** What a task's record says: how each event moves its status, and which events of the run its
    fields come from. */
module TaskQueueRecords {
  import opened Collections
  import opened TaskQueueModel
  import opened TaskQueueSafety
  import opened TaskQueueAccounting

  // ------------------------------------------------------------ one event, one task

  /** The status of `id`, if it is in the queue. */
  function StatusOf(q: Queue, id: TaskId): Option<Status> {
    if id in q.tasks.data then Some(q.tasks.data[id].status) else None
  }

  predicate CompletedAll(q: Queue, deps: seq<TaskId>) {
    forall d | d in deps :: StatusOf(q, d) == Some(Completed)
  }

  /** Completing `last` completes what was missing of `deps`. */
  predicate CompletedBy(q: Queue, deps: seq<TaskId>, last: TaskId) {
    last in deps && forall d | d in deps && d != last :: StatusOf(q, d) == Some(Completed)
  }

  /** The lifecycle, task by task: a waiting task moves with the completion of its last missing
      dependency and with nothing else. */
  function NextStatus(q: Queue, e: Event, id: TaskId): Option<Status> {
    match e
    case AddEvent(k, t) =>
      if k == id then Some(if CompletedAll(q, t.deps) then Pending else WaitingDeps) else StatusOf(q, id)
    case StartEvent(k, _) =>
      if k == id then Some(Running) else StatusOf(q, id)
    case CompleteEvent(k, _, _) =>
      if k == id then Some(Completed)
      else if StatusOf(q, id) == Some(WaitingDeps) && CompletedBy(q, q.tasks.data[id].deps, k) then Some(Pending)
      else StatusOf(q, id)
    case FailEvent(k, _, _) =>
      if k == id && k in q.tasks.data then
        Some(if q.tasks.data[k].retriesUsed < q.tasks.data[k].maxRetries then Pending else DeadLetter)
      else StatusOf(q, id)
    case CancelEvent(k, _) =>
      if k == id && StatusOf(q, id) in {Some(Pending), Some(WaitingDeps)} then Some(Cancelled)
      else StatusOf(q, id)
    case ClearEvent =>
      if StatusOf(q, id) == Some(DeadLetter) then None else StatusOf(q, id)
  }

  lemma WakeUpIsLocal(q: Queue, last: TaskId, result: Option<string>, now: real, id: TaskId)
    requires Inv(q) && HasStatus(q, last, Running) && HasStatus(q, id, WaitingDeps)
    ensures DepsMet(Finish(q, last, result, now), q.tasks.data[id].deps)
       <==> CompletedBy(q, q.tasks.data[id].deps, last)
  {
    var deps, mid := q.tasks.data[id].deps, Finish(q, last, result, now);
    assert DepsAgree(q.tasks.data, q.tasks.data[id]);
    assert forall d | d != last :: StatusOf(q, d) == Some(Completed) <==> d in mid && mid[d].status == Completed;
    if last !in deps {
      assert forall d | d in deps :: d != last;
    }
  }

  /** Every protocol step moves the status of every task as the lifecycle says. */
  lemma StatusIsExact(q: Queue, e: Event, id: TaskId)
    requires Inv(q) && Enabled(q, e)
    ensures StatusOf(Apply(q, e), id) == NextStatus(q, e, id)
  {
    match e
    case AddEvent(k, t) => assert CompletedAll(q, t.deps) <==> DepsMet(q.tasks.data, t.deps);
    case CompleteEvent(k, result, now) =>
      if HasStatus(q, id, WaitingDeps) {
        WakeUpIsLocal(q, k, result, now, id);
      }
    case _ =>
  }

  /** What is given when a task is created. */
  predicate SameGiven(t: Task, u: Task) {
    u.priority == t.priority && u.createdAt == t.createdAt && u.deps == t.deps && u.maxRetries == t.maxRetries
  }

  /** It never changes. */
  lemma GivenIsKept(q: Queue, e: Event, id: TaskId)
    requires Enabled(q, e) && id in q.tasks.data && id in Apply(q, e).tasks.data
    ensures SameGiven(q.tasks.data[id], Apply(q, e).tasks.data[id])
  {
  }

  // ---------------------------------------------------------- where records come from

  predicate Adds(e: Event, id: TaskId) {
    e.AddEvent? && e.id == id
  }

  /** Nothing in `es` from `i` on adds `id` again. */
  ghost predicate NotAddedSince(es: seq<Event>, id: TaskId, i: nat) {
    forall j :: i <= j < |es| ==> !Adds(es[j], id)
  }

  lemma SinceLater(es: seq<Event>, id: TaskId, i: nat)
    requires i < |es| - 1 && NotAddedSince(es[..|es| - 1], id, i) && !Adds(es[|es| - 1], id)
    ensures NotAddedSince(es, id, i) && es[i] == es[..|es| - 1][i]
  {
    var before := es[..|es| - 1];
    assert forall j :: i <= j < |before| ==> es[j] == before[j];
  }

  /** The last start of `id`, at the time `at`. */
  ghost predicate LastStart(es: seq<Event>, id: TaskId, i: nat, at: real) {
    && i < |es| && es[i] == StartEvent(id, at)
    && forall j :: i < j < |es| ==> !(es[j].StartEvent? && es[j].id == id)
  }

  lemma LastStartLater(es: seq<Event>, id: TaskId, i: nat, at: real)
    requires es != [] && LastStart(es[..|es| - 1], id, i, at)
    requires !(es[|es| - 1].StartEvent? && es[|es| - 1].id == id)
    ensures LastStart(es, id, i, at)
  {
    var before := es[..|es| - 1];
    assert forall j :: 0 <= j < |before| ==> es[j] == before[j];
  }

  lemma LegalPrefix(es: seq<Event>)
    requires Legal(es) && es != []
    ensures var before, e := es[..|es| - 1], es[|es| - 1];
      && Legal(before) && Enabled(After(before), e) && After(es) == Apply(After(before), e) && Inv(After(before))
  {
    ReachableInv(es[..|es| - 1]);
  }

  /** The last time `id` was added, as `t`. */
  ghost predicate LastAdd(es: seq<Event>, id: TaskId, i: nat, t: Task) {
    i < |es| && es[i] == AddEvent(id, t) && NotAddedSince(es, id, i + 1)
  }

  lemma LastAddLater(es: seq<Event>, id: TaskId, i: nat, t: Task)
    requires es != [] && LastAdd(es[..|es| - 1], id, i, t) && !Adds(es[|es| - 1], id)
    ensures LastAdd(es, id, i, t)
  {
    var before := es[..|es| - 1];
    assert forall j :: 0 <= j < |before| ==> es[j] == before[j];
  }

  /** Each task was added, as it still is but for what happened to it since. */
  lemma {:induction false} AddedAs(es: seq<Event>, id: TaskId) returns (i: nat, t: Task)
    requires Legal(es) && id in After(es).tasks.data
    ensures LastAdd(es, id, i, t) && SameGiven(t, After(es).tasks.data[id])
  {
    var before, e := es[..|es| - 1], es[|es| - 1];
    LegalPrefix(es);
    if Adds(e, id) {
      i, t := |es| - 1, e.task;
    } else {
      GivenIsPresent(After(before), e, id);
      i, t := AddedAs(before, id);
      GivenIsKept(After(before), e, id);
      LastAddLater(es, id, i, t);
    }
  }

  lemma GivenIsPresent(q: Queue, e: Event, id: TaskId)
    requires Enabled(q, e) && id in Apply(q, e).tasks.data && !Adds(e, id)
    ensures id in q.tasks.data
  {
  }

  /** A start time is that of the last start. */
  lemma {:induction false} StartedBy(es: seq<Event>, id: TaskId) returns (i: nat)
    requires Legal(es) && id in After(es).tasks.data && After(es).tasks.data[id].startedAt.Some?
    ensures LastStart(es, id, i, After(es).tasks.data[id].startedAt.value) && NotAddedSince(es, id, i)
  {
    var before, e := es[..|es| - 1], es[|es| - 1];
    LegalPrefix(es);
    if e.StartEvent? && e.id == id {
      i := |es| - 1;
    } else {
      StartKept(After(before), e, id);
      i := StartedBy(before, id);
      SinceLater(es, id, i);
      LastStartLater(es, id, i, After(before).tasks.data[id].startedAt.value);
    }
  }

  lemma StartKept(q: Queue, e: Event, id: TaskId)
    requires Enabled(q, e) && id in Apply(q, e).tasks.data && Apply(q, e).tasks.data[id].startedAt.Some?
    requires !(e.StartEvent? && e.id == id)
    ensures id in q.tasks.data && !Adds(e, id)
    ensures q.tasks.data[id].startedAt == Apply(q, e).tasks.data[id].startedAt
  {
  }

  /** How a task ended: the event that a completed, dead or cancelled task's record goes back to. */
  predicate EndedBy(t: Task, id: TaskId, e: Event) {
    match t.status
    case Completed => t.completedAt.Some? && e == CompleteEvent(id, t.result, t.completedAt.value)
    case DeadLetter => t.completedAt.Some? && t.error.Some? && e == FailEvent(id, t.error.value, t.completedAt.value)
    case Cancelled => t.completedAt.Some? && e == CancelEvent(id, t.completedAt.value)
    case _ => false
  }

  predicate Ended(t: Task) {
    t.status in {Completed, DeadLetter, Cancelled}
  }

  /** Ended tasks are left alone until they are cleared. */
  lemma EndKept(q: Queue, e: Event, id: TaskId)
    requires Enabled(q, e) && id in q.tasks.data && Ended(q.tasks.data[id]) && id in Apply(q, e).tasks.data
    ensures Apply(q, e).tasks.data[id] == q.tasks.data[id] && !Adds(e, id)
  {
  }

  lemma EndsNow(q: Queue, e: Event, id: TaskId)
    requires Enabled(q, e) && id in Apply(q, e).tasks.data && Ended(Apply(q, e).tasks.data[id])
    requires id !in q.tasks.data || !Ended(q.tasks.data[id])
    ensures EndedBy(Apply(q, e).tasks.data[id], id, e)
  {
  }

  /** The result of a completed task, the error of a dead one and the time of any end are those of the
      event that ended it. */
  lemma {:induction false} EndedAs(es: seq<Event>, id: TaskId) returns (i: nat)
    requires Legal(es) && id in After(es).tasks.data && Ended(After(es).tasks.data[id])
    ensures i < |es| && EndedBy(After(es).tasks.data[id], id, es[i]) && NotAddedSince(es, id, i)
  {
    var before, e := es[..|es| - 1], es[|es| - 1];
    LegalPrefix(es);
    if id in After(before).tasks.data && Ended(After(before).tasks.data[id]) {
      EndKept(After(before), e, id);
      i := EndedAs(before, id);
      SinceLater(es, id, i);
    } else {
      EndsNow(After(before), e, id);
      i := |es| - 1;
    }
  }

  // ------------------------------------------------------------------- clearing

  lemma {:induction false} FilterSplits(keys: seq<TaskId>, p: TaskId -> bool, r: TaskId -> bool)
    requires forall k | k in keys :: p(k) <==> !r(k)
    ensures |Filter(keys, p)| + |Filter(keys, r)| == |keys|
  {
    if keys != [] {
      assert keys[0] in keys && forall k | k in keys[1..] :: k in keys;
      FilterSplits(keys[1..], p, r);
    }
  }

  /** Clearing takes out the dead letters, which are as many as it reports, and leaves every other task
      as it was. */
  lemma ClearingIsExact(q: Queue)
    requires q.tasks.Valid()
    ensures var r := ClearDead(q);
      && (forall id :: id in r.tasks.data <==> id in q.tasks.data && q.tasks.data[id].status != DeadLetter)
      && (forall id | id in r.tasks.data :: r.tasks.data[id] == q.tasks.data[id])
      && |q.tasks.keys| == |r.tasks.keys| + |DeadIds(q)|
  {
    FilterSplits(q.tasks.keys, id => !IsDead(q, id), id => IsDead(q, id));
  }
}
