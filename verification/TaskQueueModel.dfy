/** What each TaskQueue operation does to the queue, as functions on values, and the
    client protocol as a step relation over events. */
module TaskQueueModel {
  import opened Collections
  import opened StableSort

  type TaskId = string

  datatype Status =
    | Pending
    | WaitingDeps
    | Running
    | Completed
    | Failed
    | Timeout
    | DeadLetter
    | Cancelled

  datatype Task = Task(
    priority: int,
    createdAt: real,
    deps: seq<TaskId>,
    maxRetries: int,
    status: Status,
    retriesUsed: int,
    result: Option<string>,
    error: Option<string>,
    startedAt: Option<real>,
    completedAt: Option<real>)

  type Tasks = map<TaskId, Task>

  datatype Queue = Queue(tasks: Dict<TaskId, Task>, running: int)

  const EMPTY: Queue := Queue(EmptyDict(), 0)

  // -------------------------------------------------------------- operations

  predicate DepsMet(ts: Tasks, deps: seq<TaskId>) {
    forall d | d in deps :: d in ts && ts[d].status == Completed
  }

  function Update(q: Queue, id: TaskId, t: Task): Queue
    requires id in q.tasks.data
  {
    q.(tasks := q.tasks.(data := q.tasks.data[id := t]))
  }

  function Add(q: Queue, id: TaskId, t: Task): Queue {
    var admitted := if DepsMet(q.tasks.data, t.deps) then t else t.(status := WaitingDeps);
    q.(tasks := Put(q.tasks, id, admitted))
  }

  predicate Cancellable(q: Queue, id: TaskId) {
    id in q.tasks.data && q.tasks.data[id].status in {Pending, WaitingDeps}
  }

  function Cancel(q: Queue, id: TaskId, now: real): Queue {
    if Cancellable(q, id) then
      Update(q, id, q.tasks.data[id].(status := Cancelled, completedAt := Some(now)))
    else
      q
  }

  function Start(q: Queue, id: TaskId, now: real): Queue {
    if id in q.tasks.data then
      Update(q, id, q.tasks.data[id].(status := Running, startedAt := Some(now)))
        .(running := q.running + 1)
    else
      q
  }

  function Promote(ts: Tasks, t: Task): Task {
    if t.status == WaitingDeps && DepsMet(ts, t.deps) then t.(status := Pending) else t
  }

  /** Every waiting task whose dependencies are met becomes pending, all at once. */
  function Unblock(ts: Tasks): Tasks {
    map id | id in ts :: Promote(ts, ts[id])
  }

  function Finish(q: Queue, id: TaskId, result: Option<string>, now: real): Tasks
    requires id in q.tasks.data
  {
    q.tasks.data[id := q.tasks.data[id].(status := Completed, result := result, completedAt := Some(now))]
  }

  function Complete(q: Queue, id: TaskId, result: Option<string>, now: real): Queue {
    if id in q.tasks.data then
      Queue(q.tasks.(data := Unblock(Finish(q, id, result, now))), Max(0, q.running - 1))
    else
      q
  }

  function FailedTask(t: Task, error: string, now: real): Task {
    if t.retriesUsed < t.maxRetries then
      t.(status := Pending, retriesUsed := t.retriesUsed + 1,
         error := None, startedAt := None, completedAt := None)
    else
      t.(status := DeadLetter, error := Some(error), completedAt := Some(now))
  }

  function Fail(q: Queue, id: TaskId, error: string, now: real): Queue {
    if id in q.tasks.data then
      Update(q, id, FailedTask(q.tasks.data[id], error, now)).(running := Max(0, q.running - 1))
    else
      q
  }

  predicate IsDead(q: Queue, id: TaskId) {
    id in q.tasks.data && q.tasks.data[id].status == DeadLetter
  }

  function DeadIds(q: Queue): seq<TaskId> {
    Filter(q.tasks.keys, id => IsDead(q, id))
  }

  function ClearDead(q: Queue): Queue {
    q.(tasks := Keep(q.tasks, id => !IsDead(q, id)))
  }

  // -------------------------------------------------------------- ready list

  predicate HasStatus(q: Queue, id: TaskId, s: Status) {
    id in q.tasks.data && q.tasks.data[id].status == s
  }

  /** Higher priority first, then earlier creation. */
  predicate Before(t: Task, u: Task) {
    t.priority > u.priority || (t.priority == u.priority && t.createdAt <= u.createdAt)
  }

  predicate NoLaterThan(ts: Tasks, a: TaskId, b: TaskId) {
    b !in ts || (a in ts && Before(ts[a], ts[b]))
  }

  function ReadyOrder(ts: Tasks): (TaskId, TaskId) -> bool {
    (a, b) => NoLaterThan(ts, a, b)
  }

  function PendingIds(q: Queue): seq<TaskId> {
    Filter(q.tasks.keys, id => HasStatus(q, id, Pending))
  }

  function Ready(q: Queue): seq<TaskId> {
    Sort(PendingIds(q), ReadyOrder(q.tasks.data))
  }

  // ---------------------------------------------------------------- protocol

  datatype Event =
    | AddEvent(id: TaskId, task: Task)
    | CancelEvent(id: TaskId, now: real)
    | StartEvent(id: TaskId, now: real)
    | CompleteEvent(id: TaskId, result: Option<string>, now: real)
    | FailEvent(id: TaskId, error: string, now: real)
    | ClearEvent

  function Apply(q: Queue, e: Event): Queue {
    match e
    case AddEvent(id, t) => Add(q, id, t)
    case CancelEvent(id, now) => Cancel(q, id, now)
    case StartEvent(id, now) => Start(q, id, now)
    case CompleteEvent(id, result, now) => Complete(q, id, result, now)
    case FailEvent(id, error, now) => Fail(q, id, error, now)
    case ClearEvent => ClearDead(q)
  }

  /** A task as a client creates it. */
  predicate Fresh(t: Task) {
    && t.status == Pending
    && t.retriesUsed == 0
    && t.result == None
    && t.error == None
    && t.startedAt == None
    && t.completedAt == None
  }

  /** The client protocol: fresh ids, run only what is pending, finish only what runs. */
  predicate Enabled(q: Queue, e: Event) {
    match e
    case AddEvent(id, t) => id !in q.tasks.data && Fresh(t)
    case StartEvent(id, _) => HasStatus(q, id, Pending)
    case CompleteEvent(id, _, _) => HasStatus(q, id, Running)
    case FailEvent(id, _, _) => HasStatus(q, id, Running)
    case CancelEvent(_, _) => true
    case ClearEvent => true
  }

  /** The queue after a run of events from an empty queue. */
  function After(es: seq<Event>): Queue {
    if es == [] then EMPTY else Apply(After(es[..|es| - 1]), es[|es| - 1])
  }

  predicate Legal(es: seq<Event>) {
    es == [] || (Legal(es[..|es| - 1]) && Enabled(After(es[..|es| - 1]), es[|es| - 1]))
  }
}
