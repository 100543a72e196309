/** What can and what cannot still happen: completion order, stuck tasks, doomed tasks. */
module TaskQueueLiveness {
  import opened Collections
  import opened TaskQueueModel
  import opened TaskQueueSafety

  // ------------------------------------------------------- dependency chains

  /** Each task on the path depends on the next; only the last may be absent. */
  ghost predicate IsDepPath(ts: Tasks, p: seq<TaskId>) {
    && p != []
    && (forall i :: 0 <= i < |p| - 1 ==> p[i] in ts && p[i + 1] in ts[p[i]].deps)
  }

  /** The whole transitive closure of a released task's dependencies is completed. */
  lemma {:induction false} ClosureCompleted(q: Queue, p: seq<TaskId>)
    requires Inv(q) && IsDepPath(q.tasks.data, p)
    requires p[0] in q.tasks.data && Released(q.tasks.data[p[0]].status)
    ensures forall i :: 0 < i < |p| ==> HasStatus(q, p[i], Completed)
  {
    if |p| > 1 {
      assert p[1] in q.tasks.data[p[0]].deps;
      ClosureCompleted(q, p[1..]);
      forall i | 0 < i < |p| ensures HasStatus(q, p[i], Completed) {
        assert p[i] == p[1..][i - 1];
      }
    }
  }

  // -------------------------------------------------------- completion order

  function Completions(e: Event): seq<TaskId> {
    match e
    case CompleteEvent(id, _, _) => [id]
    case _ => []
  }

  /** The ids of the completed tasks, in the order in which they completed. */
  function CompletionOrder(es: seq<Event>): seq<TaskId> {
    if es == [] then [] else CompletionOrder(es[..|es| - 1]) + Completions(es[|es| - 1])
  }

  /** A completed task stays, completed and with the same dependencies. */
  lemma CompletedIsFinal(q: Queue, e: Event, id: TaskId)
    requires Enabled(q, e) && HasStatus(q, id, Completed)
    ensures HasStatus(Apply(q, e), id, Completed)
    ensures Apply(q, e).tasks.data[id].deps == q.tasks.data[id].deps
  {
  }

  lemma OnlyCompleteCompletes(q: Queue, e: Event, id: TaskId)
    requires Enabled(q, e) && HasStatus(Apply(q, e), id, Completed) && !HasStatus(q, id, Completed)
    ensures Completions(e) == [id]
  {
  }

  ghost predicate DepsBefore(order: seq<TaskId>, ts: Tasks) {
    forall i, d :: 0 <= i < |order| && order[i] in ts && d in ts[order[i]].deps ==> d in order[..i]
  }

  /** `order` lists exactly the completed tasks, once each, after their dependencies. */
  ghost predicate CompletesInOrder(q: Queue, order: seq<TaskId>) {
    && Distinct(order)
    && (forall id :: id in order <==> HasStatus(q, id, Completed))
    && DepsBefore(order, q.tasks.data)
  }

  lemma CompletionsAreNew(q: Queue, e: Event, order: seq<TaskId>)
    requires Enabled(q, e) && CompletesInOrder(q, order)
    ensures Distinct(order + Completions(e))
    ensures forall id :: id in order + Completions(e) <==> HasStatus(Apply(q, e), id, Completed)
  {
    if e.CompleteEvent? {
      assert !HasStatus(q, e.id, Completed) && e.id !in order;
    }
    forall id ensures id in order + Completions(e) <==> HasStatus(Apply(q, e), id, Completed) {
      if HasStatus(q, id, Completed) {
        CompletedIsFinal(q, e, id);
      } else if HasStatus(Apply(q, e), id, Completed) {
        OnlyCompleteCompletes(q, e, id);
      }
    }
  }

  lemma CompletionDepsBefore(q: Queue, e: Event, order: seq<TaskId>)
    requires Inv(q) && Enabled(q, e) && CompletesInOrder(q, order)
    ensures DepsBefore(order + Completions(e), Apply(q, e).tasks.data)
  {
    var longer, r := order + Completions(e), Apply(q, e);
    forall i, d | 0 <= i < |longer| && longer[i] in r.tasks.data && d in r.tasks.data[longer[i]].deps
      ensures d in longer[..i]
    {
      if i < |order| {
        assert order[i] in order;
        CompletedIsFinal(q, e, order[i]);
        assert longer[..i] == order[..i];
      } else {
        assert longer[..i] == order;
        assert DepsAgree(q.tasks.data, q.tasks.data[longer[i]]);
        assert HasStatus(q, d, Completed);
      }
    }
  }

  /** Completion order lists each completed task once, after all of its dependencies. */
  lemma {:induction false} CompletionOrderIsTopological(es: seq<Event>)
    requires Legal(es)
    ensures CompletesInOrder(After(es), CompletionOrder(es))
  {
    if es != [] {
      var before, e := es[..|es| - 1], es[|es| - 1];
      CompletionOrderIsTopological(before);
      ReachableInv(before);
      CompletionsAreNew(After(before), e, CompletionOrder(before));
      CompletionDepsBefore(After(before), e, CompletionOrder(before));
    }
  }

  // ------------------------------------------------------------- quiescence

  ghost predicate Quiescent(q: Queue) {
    forall id :: !HasStatus(q, id, Pending) && !HasStatus(q, id, Running)
  }

  /** A dependency on `id` can not be met as things stand. */
  predicate Blocked(q: Queue, id: TaskId) {
    id !in q.tasks.data || q.tasks.data[id].status in {Cancelled, DeadLetter}
  }

  /** A chain of waiting tasks that ends in a blocked task, or bites its own tail. */
  ghost predicate StuckChain(q: Queue, p: seq<TaskId>) {
    && IsDepPath(q.tasks.data, p)
    && (forall i :: 0 <= i < |p| - 1 ==> HasStatus(q, p[i], WaitingDeps))
    && (Blocked(q, p[|p| - 1]) || p[|p| - 1] in p[..|p| - 1])
  }

  lemma OnlyWaitingIsLeft(q: Queue, id: TaskId)
    requires Inv(q) && Quiescent(q) && !Blocked(q, id) && !HasStatus(q, id, Completed)
    ensures HasStatus(q, id, WaitingDeps)
  {
    assert DepsAgree(q.tasks.data, q.tasks.data[id]);
    assert !HasStatus(q, id, Pending) && !HasStatus(q, id, Running);
    match q.tasks.data[id].status
    case WaitingDeps =>
    case _ =>
  }

  lemma {:induction false} FollowWaiting(q: Queue, p: seq<TaskId>) returns (r: seq<TaskId>)
    requires Inv(q) && Quiescent(q)
    requires IsDepPath(q.tasks.data, p) && Distinct(p)
    requires forall i :: 0 <= i < |p| ==> HasStatus(q, p[i], WaitingDeps)
    ensures StuckChain(q, r) && r[0] == p[0]
    decreases |q.tasks.data.Keys| - |p|
  {
    var last := p[|p| - 1];
    assert DepsAgree(q.tasks.data, q.tasks.data[last]);
    var d :| d in q.tasks.data[last].deps && !HasStatus(q, d, Completed);
    var longer := p + [d];
    assert IsDepPath(q.tasks.data, longer);
    assert longer[..|longer| - 1] == p;
    if Blocked(q, d) || d in p {
      r := longer;
    } else {
      OnlyWaitingIsLeft(q, d);
      DistinctWithin(longer, q.tasks.data.Keys);
      r := FollowWaiting(q, longer);
    }
  }

  /** When nothing is pending or running, every waiting task has a reason: a chain of waiting
      tasks leads from it to a cancelled, dead or absent one, or into a cycle. */
  lemma StuckHasReason(q: Queue, id: TaskId) returns (p: seq<TaskId>)
    requires Inv(q) && Quiescent(q) && HasStatus(q, id, WaitingDeps)
    ensures StuckChain(q, p) && p[0] == id && |p| > 1
  {
    p := FollowWaiting(q, [id]);
  }

  ghost predicate Acyclic(ts: Tasks) {
    forall p :: IsDepPath(ts, p) && |p| > 1 ==> p[0] != p[|p| - 1]
  }

  predicate DepsPresent(ts: Tasks) {
    forall id | id in ts :: forall d | d in ts[id].deps :: d in ts
  }

  predicate NoCasualties(ts: Tasks) {
    forall id | id in ts :: ts[id].status !in {Cancelled, DeadLetter}
  }

  predicate AllCompleted(ts: Tasks) {
    forall id | id in ts :: ts[id].status == Completed
  }

  /** A chain that bites its own tail contains a cycle. */
  lemma TailBiteIsCycle(ts: Tasks, p: seq<TaskId>, j: nat)
    requires IsDepPath(ts, p) && j < |p| - 1 && p[j] == p[|p| - 1]
    ensures !Acyclic(ts)
  {
    var cycle := p[j..];
    assert IsDepPath(ts, cycle) && |cycle| > 1 && cycle[0] == cycle[|cycle| - 1];
  }

  lemma StuckChainHasCause(q: Queue, p: seq<TaskId>)
    requires StuckChain(q, p) && |p| > 1
    ensures !Acyclic(q.tasks.data) || !DepsPresent(q.tasks.data) || !NoCasualties(q.tasks.data)
  {
    var last, n := p[|p| - 1], |p| - 2;
    if Blocked(q, last) {
      assert p[n] in q.tasks.data && p[n + 1] in q.tasks.data[p[n]].deps;
    } else {
      var j :| 0 <= j < |p| - 1 && p[..|p| - 1][j] == last;
      TailBiteIsCycle(q.tasks.data, p, j);
    }
  }

  lemma NoStuckWork(q: Queue)
    requires Inv(q) && Quiescent(q)
    requires Acyclic(q.tasks.data) && DepsPresent(q.tasks.data) && NoCasualties(q.tasks.data)
    ensures AllCompleted(q.tasks.data)
  {
    forall id | id in q.tasks.data ensures q.tasks.data[id].status == Completed {
      if !HasStatus(q, id, Completed) {
        OnlyWaitingIsLeft(q, id);
        var p := StuckHasReason(q, id);
        StuckChainHasCause(q, p);
      }
    }
  }

  /** Dependency paths among completed tasks run backwards in completion order. */
  lemma {:induction false} PathRunsBackwards(order: seq<TaskId>, ts: Tasks, p: seq<TaskId>, i: nat) returns (j: nat)
    requires DepsBefore(order, ts) && IsDepPath(ts, p)
    requires forall id :: id in ts ==> id in order
    requires i < |order| && order[i] == p[0]
    ensures j <= i && order[j] == p[|p| - 1]
    ensures |p| > 1 ==> j < i
  {
    if |p| == 1 {
      j := i;
    } else {
      assert p[1] in ts[order[i]].deps;
      assert p[1] in order[..i];
      var k :| 0 <= k < i && order[k] == p[1];
      j := PathRunsBackwards(order, ts, p[1..], k);
    }
  }

  /** A run that has come to rest completed everything exactly when nothing was cancelled or
      dead-lettered, no dependency is missing and the dependencies have no cycle. */
  lemma RestMeansDone(es: seq<Event>)
    requires Legal(es) && Quiescent(After(es))
    ensures var ts := After(es).tasks.data;
      AllCompleted(ts) <==> Acyclic(ts) && DepsPresent(ts) && NoCasualties(ts)
  {
    ReachableInv(es);
    var ts := After(es).tasks.data;
    if Acyclic(ts) && DepsPresent(ts) && NoCasualties(ts) {
      NoStuckWork(After(es));
    }
    if AllCompleted(ts) {
      CompletionOrderIsTopological(es);
      var order := CompletionOrder(es);
      forall id | id in ts ensures forall d | d in ts[id].deps :: d in ts {
        assert DepsAgree(ts, ts[id]);
      }
      forall p | IsDepPath(ts, p) && |p| > 1 ensures p[0] != p[|p| - 1] {
        assert p[0] in ts && HasStatus(After(es), p[0], Completed);
        var i :| 0 <= i < |order| && order[i] == p[0];
        forall id | id in ts ensures id in order {
          assert HasStatus(After(es), id, Completed);
        }
        var j := PathRunsBackwards(order, ts, p, i);
        assert order[i] != order[j];
      }
    }
  }

  // ------------------------------------------------------------ doomed tasks

  /** Every member is cancelled, or waits for another member. */
  ghost predicate Doomed(q: Queue, ds: set<TaskId>) {
    forall id | id in ds ::
      HasStatus(q, id, Cancelled)
      || (HasStatus(q, id, WaitingDeps) && exists d :: d in q.tasks.data[id].deps && d in ds)
  }

  lemma StepKeepsDoomed(q: Queue, e: Event, ds: set<TaskId>)
    requires Enabled(q, e) && Doomed(q, ds)
    ensures Doomed(Apply(q, e), ds)
  {
    var r := Apply(q, e);
    forall id | id in ds
      ensures HasStatus(r, id, Cancelled)
        || (HasStatus(r, id, WaitingDeps) && exists d :: d in r.tasks.data[id].deps && d in ds)
    {
      if HasStatus(q, id, WaitingDeps) {
        var d :| d in q.tasks.data[id].deps && d in ds;
        assert HasStatus(q, d, Cancelled) || HasStatus(q, d, WaitingDeps);
        assert !HasStatus(r, d, Completed);
      }
    }
  }

  lemma LegalSnoc(es: seq<Event>, e: Event)
    requires Legal(es + [e])
    ensures Legal(es) && Enabled(After(es), e) && After(es + [e]) == Apply(After(es), e)
  {
    assert (es + [e])[..|es|] == es;
  }

  /** The last event of a run that goes on from another. */
  lemma LastEventOf(es: seq<Event>, fs: seq<Event>) returns (init: seq<Event>, e: Event)
    requires Legal(es + fs) && fs != []
    ensures fs == init + [e]
    ensures Legal(es + init) && Enabled(After(es + init), e)
    ensures After(es + fs) == Apply(After(es + init), e)
  {
    init, e := fs[..|fs| - 1], fs[|fs| - 1];
    InitLast(fs);
    Assoc(es, init, [e]);
    LegalSnoc(es + init, e);
  }

  /** Nothing in a doomed set is ever released again, however the run goes on. */
  lemma {:induction false} DoomedForever(es: seq<Event>, fs: seq<Event>, ds: set<TaskId>)
    requires Legal(es + fs) && Doomed(After(es), ds)
    ensures Doomed(After(es + fs), ds)
    ensures forall id | id in ds :: id in After(es + fs).tasks.data && !Released(After(es + fs).tasks.data[id].status)
    decreases |fs|
  {
    if fs == [] {
      assert es + fs == es;
    } else {
      var init, e := LastEventOf(es, fs);
      DoomedForever(es, init, ds);
      StepKeepsDoomed(After(es + init), e, ds);
    }
  }

  /** A rest with all dependencies present and no dead letters is final: whatever is not
      completed by then never will be. */
  lemma RestIsFinal(es: seq<Event>, fs: seq<Event>, id: TaskId)
    requires Legal(es + fs) && Legal(es) && Quiescent(After(es)) && DepsPresent(After(es).tasks.data)
    requires forall k | k in After(es).tasks.data :: !HasStatus(After(es), k, DeadLetter)
    requires id in After(es).tasks.data && !HasStatus(After(es), id, Completed)
    ensures id in After(es + fs).tasks.data && !Released(After(es + fs).tasks.data[id].status)
  {
    ReachableInv(es);
    var q := After(es);
    var ds := set k | k in q.tasks.data && q.tasks.data[k].status in {WaitingDeps, Cancelled};
    forall k | k in q.tasks.data ensures k in ds || HasStatus(q, k, Completed) {
      assert DepsAgree(q.tasks.data, q.tasks.data[k]);
      assert !HasStatus(q, k, Pending) && !HasStatus(q, k, Running);
    }
    forall k | k in ds && HasStatus(q, k, WaitingDeps)
      ensures exists d :: d in q.tasks.data[k].deps && d in ds
    {
      assert DepsAgree(q.tasks.data, q.tasks.data[k]);
      var d :| d in q.tasks.data[k].deps && !HasStatus(q, d, Completed);
    }
    DoomedForever(es, fs, ds);
  }
}
