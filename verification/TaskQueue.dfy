/** The queue as the program keeps it: task objects changed in place, held in a dictionary.
    Each method is tied to the function of TaskQueueModel that says what it does. */
module TaskQueue {
  import opened Collections
  import opened StableSort
  import M = TaskQueueModel
  import TaskQueueSafety
  import opened TaskQueueAccounting

  class QueueTask {
    const id: M.TaskId
    const priority: int
    const createdAt: real
    const deps: seq<M.TaskId>
    const maxRetries: int
    var status: M.Status
    var retriesUsed: int
    var result: Option<string>
    var error: Option<string>
    var startedAt: Option<real>
    var completedAt: Option<real>

    constructor (id: M.TaskId, priority: int, createdAt: real, deps: seq<M.TaskId>, maxRetries: int)
      ensures this.id == id
      ensures View() == M.Task(priority, createdAt, deps, maxRetries, M.Pending, 0, None, None, None, None)
      ensures M.Fresh(View())
    {
      this.id, this.priority, this.createdAt, this.deps, this.maxRetries := id, priority, createdAt, deps, maxRetries;
      status, retriesUsed, result, error, startedAt, completedAt := M.Pending, 0, None, None, None, None;
    }

    function View(): M.Task
      reads this
    {
      M.Task(priority, createdAt, deps, maxRetries, status, retriesUsed, result, error, startedAt, completedAt)
    }
  }

  class Queue {
    var tasks: Dict<M.TaskId, QueueTask>
    var runningCount: int

    /** Tasks are filed under their own id, so distinct ids are distinct objects. */
    ghost predicate Valid()
      reads this, tasks.data.Values
    {
      && tasks.Valid()
      && (forall id | id in tasks.data :: tasks.data[id].id == id)
    }

    function Views(): M.Tasks
      reads this, tasks.data.Values
    {
      map id | id in tasks.data :: tasks.data[id].View()
    }

    function View(): M.Queue
      reads this, tasks.data.Values
    {
      M.Queue(Dict(tasks.keys, Views()), runningCount)
    }

    /** When only `task` was written, and is filed under its id, only its view moved. */
    twostate lemma ViewsAfterChange(task: QueueTask)
      requires old(Valid()) && tasks.data == old(tasks.data)[task.id := task]
      requires forall id | id in old(tasks.data) && id != task.id :: unchanged(old(tasks.data)[id])
      ensures Views() == old(Views())[task.id := task.View()]
    {
    }

    /** Dropping entries drops their views and touches no other. */
    twostate lemma ViewsAfterKeep(p: M.TaskId -> bool)
      requires tasks == Keep(old(tasks), p)
      requires forall id | id in old(tasks.data) :: unchanged(old(tasks.data)[id])
      ensures Dict(tasks.keys, Views()) == Keep(Dict(old(tasks).keys, old(Views())), p)
    {
    }

    constructor ()
      ensures Valid() && View() == M.EMPTY
    {
      tasks, runningCount := EmptyDict(), 0;
    }

    method CheckDependencies(task: QueueTask) returns (met: bool)
      requires Valid()
      ensures met == M.DepsMet(Views(), task.deps)
    {
      for i := 0 to |task.deps|
        invariant forall d | d in task.deps[..i] :: d in Views() && Views()[d].status == M.Completed
      {
        var d := task.deps[i];
        if d !in tasks.data || tasks.data[d].status != M.Completed {
          assert d in task.deps;
          return false;
        }
      }
      assert task.deps[..|task.deps|] == task.deps;
      return true;
    }

    method AddTask(task: QueueTask) returns (id: M.TaskId)
      requires Valid()
      modifies this, task
      ensures Valid() && id == task.id
      ensures View() == M.Add(old(View()), task.id, old(task.View()))
    {
      var met := CheckDependencies(task);
      if !met {
        task.status := M.WaitingDeps;
      }
      tasks := Put(tasks, task.id, task);
      ViewsAfterChange(task);
      return task.id;
    }

    method CancelTask(id: M.TaskId, now: real) returns (ok: bool)
      requires Valid()
      modifies tasks.data.Values
      ensures Valid() && ok == M.Cancellable(old(View()), id)
      ensures ok <==> id in old(tasks.data) && old(tasks.data[id].status) in {M.Pending, M.WaitingDeps}
      ensures View() == M.Cancel(old(View()), id, now)
    {
      if id !in tasks.data || tasks.data[id].status !in {M.Pending, M.WaitingDeps} {
        return false;
      }
      var task := tasks.data[id];
      task.status := M.Cancelled;
      task.completedAt := Some(now);
      return true;
    }

    method GetReadyTasks() returns (ready: seq<QueueTask>)
      requires Valid()
      ensures |ready| == |M.Ready(View())|
      ensures forall i :: 0 <= i < |ready| ==>
        M.Ready(View())[i] in tasks.data && ready[i] == tasks.data[M.Ready(View())[i]]
    {
      var q := View();
      var ids: seq<M.TaskId> := [];
      for i := 0 to |tasks.keys|
        invariant ids == Filter(tasks.keys[..i], id => M.HasStatus(q, id, M.Pending))
      {
        FilterStep(tasks.keys, i, id => M.HasStatus(q, id, M.Pending));
        if tasks.data[tasks.keys[i]].status == M.Pending {
          ids := ids + [tasks.keys[i]];
        }
      }
      assert tasks.keys[..|tasks.keys|] == tasks.keys;
      ids := Sort(ids, M.ReadyOrder(q.tasks.data));
      ReadyMembers(q);
      ready := [];
      for i := 0 to |ids|
        invariant |ready| == i
        invariant forall j :: 0 <= j < i ==> ids[j] in tasks.data && ready[j] == tasks.data[ids[j]]
      {
        assert ids[i] in M.Ready(q);
        ready := ready + [tasks.data[ids[i]]];
      }
    }

    method MarkRunning(id: M.TaskId, now: real)
      requires Valid()
      modifies this, tasks.data.Values
      ensures Valid()
      ensures View() == M.Start(old(View()), id, now)
    {
      if id !in tasks.data {
        return;
      }
      var task := tasks.data[id];
      task.status := M.Running;
      task.startedAt := Some(now);
      runningCount := runningCount + 1;
    }

    method MarkCompleted(id: M.TaskId, result: Option<string>, now: real)
      requires Valid()
      modifies this, tasks.data.Values
      ensures Valid()
      ensures View() == M.Complete(old(View()), id, result, now)
    {
      if id !in tasks.data {
        return;
      }
      var task := tasks.data[id];
      task.status := M.Completed;
      task.result := result;
      task.completedAt := Some(now);
      runningCount := Max(0, runningCount - 1);
      assert Views() == M.Finish(old(View()), id, result, now);
      UnblockDependents();
    }

    method MarkFailed(id: M.TaskId, error: string, now: real)
      requires Valid()
      modifies this, tasks.data.Values
      ensures Valid()
      ensures View() == M.Fail(old(View()), id, error, now)
    {
      if id !in tasks.data {
        return;
      }
      var task := tasks.data[id];
      task.status := M.Failed;
      task.error := Some(error);
      task.completedAt := Some(now);
      runningCount := Max(0, runningCount - 1);
      if task.retriesUsed < task.maxRetries {
        RetryTask(task);
      } else {
        task.status := M.DeadLetter;
      }
    }

    method PromoteIfReady(task: QueueTask)
      requires Valid()
      modifies task
      ensures task.View() == M.Promote(old(Views()), old(task.View()))
    {
      if task.status == M.WaitingDeps {
        var met := CheckDependencies(task);
        if met {
          task.status := M.Pending;
        }
      }
    }

    /** The sweep visits the tasks one by one, yet promotes exactly those that were ready
        when it began. */
    method UnblockDependents()
      requires Valid()
      modifies tasks.data.Values
      ensures Valid()
      ensures Views() == M.Unblock(old(Views()))
    {
      ghost var ts := Views();
      for i := 0 to |tasks.keys|
        invariant Views() == Swept(ts, tasks.keys[..i])
      {
        var task := tasks.data[tasks.keys[i]];
        label before:
        SweptNext(ts, tasks.keys, i);
        assert task.View() == ts[tasks.keys[i]];
        PromoteSwept(ts, tasks.keys[..i], task.View());
        PromoteIfReady(task);
        ViewsAfterChange@before(task);
      }
    }

    method RetryTask(task: QueueTask)
      modifies task
      ensures task.View() == old(task.View()).(
        status := M.Pending, retriesUsed := old(task.retriesUsed) + 1,
        error := None, startedAt := None, completedAt := None)
    {
      task.retriesUsed := task.retriesUsed + 1;
      task.status := M.Pending;
      task.error := None;
      task.startedAt := None;
      task.completedAt := None;
    }

    /** The comprehension that collects the dead letters. */
    method DeadLetterIds() returns (dead: seq<M.TaskId>)
      requires Valid()
      ensures dead == M.DeadIds(View())
    {
      ghost var q := View();
      dead := [];
      for i := 0 to |tasks.keys|
        invariant dead == Filter(tasks.keys[..i], id => M.IsDead(q, id))
      {
        FilterStep(tasks.keys, i, id => M.IsDead(q, id));
        if tasks.data[tasks.keys[i]].status == M.DeadLetter {
          dead := dead + [tasks.keys[i]];
        }
      }
      assert tasks.keys[..|tasks.keys|] == tasks.keys;
    }

    method ClearDeadLetters() returns (removed: nat)
      requires Valid()
      modifies this
      ensures Valid()
      ensures View() == M.ClearDead(old(View()))
      ensures removed == |M.DeadIds(old(View()))|
    {
      var dead := DeadLetterIds();
      DropDead(View(), dead);
      DeleteAll(dead);
      ViewsAfterKeep(k => k !in dead);
      return |dead|;
    }

    method DeleteAll(ids: seq<M.TaskId>)
      requires Valid()
      modifies this`tasks
      ensures Valid() && runningCount == old(runningCount)
      ensures tasks == Keep(old(tasks), k => k !in ids)
    {
      ghost var before := tasks;
      KeepAll(before, k => k !in ids[..0]);
      for i := 0 to |ids|
        invariant tasks == Keep(before, k => k !in ids[..i])
      {
        KeepThenRemove(before, k => k !in ids[..i], ids[i], k => k !in ids[..i + 1]);
        tasks := Remove(tasks, ids[i]);
      }
      assert ids[..|ids|] == ids;
      KeepValid(before, k => k !in ids);
    }
  }

  lemma DropDead(q: M.Queue, dead: seq<M.TaskId>)
    requires q.tasks.Valid() && dead == M.DeadIds(q)
    ensures Keep(q.tasks, k => k !in dead) == M.ClearDead(q).tasks
  {
    FilterMembers(q.tasks.keys, id => M.IsDead(q, id));
    FilterAgree(q.tasks.keys, k => k !in dead, id => !M.IsDead(q, id));
  }

  /** The tasks after the sweep has visited `done`. */
  ghost function Swept(ts: M.Tasks, done: seq<M.TaskId>): M.Tasks {
    map id | id in ts :: if id in done then M.Promote(ts, ts[id]) else ts[id]
  }

  lemma SweptNext(ts: M.Tasks, keys: seq<M.TaskId>, i: nat)
    requires i < |keys| && Distinct(keys) && keys[i] in ts
    ensures Swept(ts, keys[..i])[keys[i]] == ts[keys[i]]
    ensures Swept(ts, keys[..i + 1]) == Swept(ts, keys[..i])[keys[i] := M.Promote(ts, ts[keys[i]])]
  {
    assert keys[..i + 1] == keys[..i] + [keys[i]];
  }

  lemma PromoteSwept(ts: M.Tasks, done: seq<M.TaskId>, t: M.Task)
    ensures M.Promote(Swept(ts, done), t) == M.Promote(ts, t)
  {
    TaskQueueSafety.SameCompletedSameDeps(Swept(ts, done), ts, t.deps);
  }
}
