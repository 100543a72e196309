/** Which tasks can still complete, given that an id is never used for a second task: exactly
    those in no lost set. */
module TaskQueueProspects {
  import opened Collections
  import opened TaskQueueModel
  import opened TaskQueueSafety
  import opened TaskQueueLiveness
  import opened TaskQueueAccounting

  // ------------------------------------------------------------------ used ids

  function Uses(e: Event): set<TaskId> {
    if e.AddEvent? then {e.id} else {}
  }

  /** The ids of all tasks ever added, including those cleared since. */
  function Used(es: seq<Event>): set<TaskId> {
    if es == [] then {} else Used(es[..|es| - 1]) + Uses(es[|es| - 1])
  }

  /** No id is given to a second task. */
  predicate IdsFresh(es: seq<Event>) {
    es == [] || (IdsFresh(es[..|es| - 1]) && Uses(es[|es| - 1]) !! Used(es[..|es| - 1]))
  }

  /** A protocol run in which every task has an id of its own. */
  predicate Proper(es: seq<Event>) {
    Legal(es) && IdsFresh(es)
  }

  lemma ProperSnoc(es: seq<Event>, e: Event)
    ensures Proper(es + [e]) <==> Proper(es) && Enabled(After(es), e) && Uses(e) !! Used(es)
    ensures After(es + [e]) == Apply(After(es), e) && Used(es + [e]) == Used(es) + Uses(e)
  {
    assert (es + [e])[..|es|] == es;
  }

  /** The last event of a proper run that goes on from another. */
  lemma LastOfProper(es: seq<Event>, fs: seq<Event>) returns (init: seq<Event>, e: Event)
    requires Proper(es + fs) && fs != []
    ensures fs == init + [e]
    ensures Proper(es + init) && Enabled(After(es + init), e) && Uses(e) !! Used(es + init)
    ensures After(es + fs) == Apply(After(es + init), e) && Used(es + fs) == Used(es + init) + Uses(e)
  {
    init, e := fs[..|fs| - 1], fs[|fs| - 1];
    InitLast(fs);
    Assoc(es, init, [e]);
    ProperSnoc(es + init, e);
  }

  lemma {:induction false} TasksAreUsed(es: seq<Event>)
    ensures After(es).tasks.data.Keys <= Used(es)
  {
    if es != [] {
      TasksAreUsed(es[..|es| - 1]);
    }
  }

  // ----------------------------------------------------------------- lost tasks

  /** Cancelled, dead, cleared away, or waiting for something in `ds`. */
  predicate LostMember(q: Queue, used: set<TaskId>, ds: set<TaskId>, id: TaskId) {
    || HasStatus(q, id, Cancelled)
    || HasStatus(q, id, DeadLetter)
    || (id in used && id !in q.tasks.data)
    || (HasStatus(q, id, WaitingDeps) && exists d | d in ds :: d in q.tasks.data[id].deps)
  }

  predicate Lost(q: Queue, used: set<TaskId>, ds: set<TaskId>) {
    forall id | id in ds :: LostMember(q, used, ds, id)
  }

  lemma StepKeepsLostMember(q: Queue, used: set<TaskId>, e: Event, ds: set<TaskId>, id: TaskId)
    requires Enabled(q, e) && Uses(e) !! used && q.tasks.data.Keys <= used
    requires Lost(q, used, ds) && id in ds
    ensures LostMember(Apply(q, e), used + Uses(e), ds, id)
  {
    assert LostMember(q, used, ds, id);
    if HasStatus(q, id, WaitingDeps) {
      var d :| d in ds && d in q.tasks.data[id].deps;
      assert LostMember(q, used, ds, d);
      assert !HasStatus(Apply(q, e), d, Completed);
    }
  }

  /** Nothing in a lost set completes, however the run goes on. */
  lemma {:induction false} LostForever(es: seq<Event>, fs: seq<Event>, ds: set<TaskId>)
    requires Proper(es + fs) && Lost(After(es), Used(es), ds)
    ensures Lost(After(es + fs), Used(es + fs), ds)
    ensures forall id | id in ds :: !HasStatus(After(es + fs), id, Completed)
    decreases |fs|
  {
    if fs == [] {
      assert es + fs == es;
    } else {
      var init, e := LastOfProper(es, fs);
      LostForever(es, init, ds);
      TasksAreUsed(es + init);
      forall id | id in ds ensures LostMember(After(es + fs), Used(es + fs), ds, id) {
        StepKeepsLostMember(After(es + init), Used(es + init), e, ds, id);
      }
    }
    forall id | id in ds ensures !HasStatus(After(es + fs), id, Completed) {
      assert LostMember(After(es + fs), Used(es + fs), ds, id);
    }
  }

  // -------------------------------------------------------------- helpful runs

  const BLANK_TASK := Task(0, 0.0, [], 0, Pending, 0, None, None, None, None)

  /** Events of a helpful client: it adds what is missing, without dependencies, and runs tasks to
      completion; it never cancels or clears, and nothing fails. */
  predicate Helpful(e: Event) {
    match e
    case AddEvent(_, t) => t == BLANK_TASK
    case StartEvent(_, _) => true
    case CompleteEvent(_, _, _) => true
    case _ => false
  }

  /** Helpful events remove nothing, and leave nobody worse off. */
  lemma HelpKeepsBlockedTasks(q: Queue, e: Event, k: TaskId)
    requires Enabled(q, e) && Helpful(e)
    ensures k in q.tasks.data ==> k in Apply(q, e).tasks.data
    ensures HasStatus(Apply(q, e), k, Cancelled) ==> HasStatus(q, k, Cancelled)
    ensures HasStatus(Apply(q, e), k, DeadLetter) ==> HasStatus(q, k, DeadLetter)
    ensures HasStatus(Apply(q, e), k, WaitingDeps) ==>
      HasStatus(q, k, WaitingDeps) && Apply(q, e).tasks.data[k].deps == q.tasks.data[k].deps
  {
  }

  /** A helpful event loses nothing that was not lost already. */
  lemma HelpLosesNothing(q: Queue, used: set<TaskId>, e: Event, ds: set<TaskId>)
    requires Enabled(q, e) && Helpful(e) && Lost(Apply(q, e), used + Uses(e), ds)
    ensures Lost(q, used, ds)
  {
    var r := Apply(q, e);
    forall k | k in ds ensures LostMember(q, used, ds, k) {
      assert LostMember(r, used + Uses(e), ds, k);
      HelpKeepsBlockedTasks(q, e, k);
    }
  }

  /** What is lost after help was lost before. */
  lemma {:induction false} HelpNeverLoses(es: seq<Event>, fs: seq<Event>, ds: set<TaskId>)
    requires Proper(es + fs) && (forall e | e in fs :: Helpful(e)) && Lost(After(es + fs), Used(es + fs), ds)
    ensures Lost(After(es), Used(es), ds)
    decreases |fs|
  {
    if fs == [] {
      assert es + fs == es;
    } else {
      var init, e := LastOfProper(es, fs);
      HelpLosesNothing(After(es + init), Used(es + init), e, ds);
      HelpNeverLoses(es, init, ds);
    }
  }

  // ------------------------------------------------------------ helping to rest

  /** Ids never used that some task depends on, and `id` itself if never used. */
  function Missing(ts: Tasks, used: set<TaskId>, id: TaskId): set<TaskId> {
    (set k, d | k in ts && d in ts[k].deps && d !in used :: d) + if id in used then {} else {id}
  }

  /** Nothing to run and nothing to add. */
  ghost predicate AtRest(q: Queue, used: set<TaskId>, id: TaskId) {
    Missing(q.tasks.data, used, id) == {} && Quiescent(q)
  }

  predicate Needed(ts: Tasks, x: TaskId) {
    exists k | k in ts :: x in ts[k].deps
  }

  lemma MissingIs(ts: Tasks, used: set<TaskId>, id: TaskId, x: TaskId)
    ensures x in Missing(ts, used, id) <==> x !in used && (x == id || Needed(ts, x))
  {
  }

  lemma SameNeeded(ts: Tasks, us: Tasks, x: TaskId)
    requires forall k | k in ts :: k in us && us[k].deps == ts[k].deps
    requires forall k | k in us && k !in ts :: us[k].deps == []
    ensures Needed(us, x) == Needed(ts, x)
  {
  }

  lemma AddFillsGap(q: Queue, used: set<TaskId>, id: TaskId, d: TaskId)
    requires d in Missing(q.tasks.data, used, id) && d !in q.tasks.data
    ensures Missing(Add(q, d, BLANK_TASK).tasks.data, used + {d}, id) == Missing(q.tasks.data, used, id) - {d}
  {
    var ts, us := q.tasks.data, Add(q, d, BLANK_TASK).tasks.data;
    assert us == ts[d := BLANK_TASK];
    forall x ensures x in Missing(us, used + {d}, id) <==> x in Missing(ts, used, id) - {d} {
      MissingIs(ts, used, id, x);
      MissingIs(us, used + {d}, id, x);
      SameNeeded(ts, us, x);
    }
  }

  lemma RunKeepsGaps(q: Queue, used: set<TaskId>, e: Event, id: TaskId)
    requires Enabled(q, e) && (e.StartEvent? || e.CompleteEvent?)
    ensures Missing(Apply(q, e).tasks.data, used, id) == Missing(q.tasks.data, used, id)
  {
    var ts, us := q.tasks.data, Apply(q, e).tasks.data;
    forall x ensures x in Missing(us, used, id) <==> x in Missing(ts, used, id) {
      MissingIs(ts, used, id, x);
      MissingIs(us, used, id, x);
      SameNeeded(ts, us, x);
    }
  }

  /** Each helpful step fills a gap, or lowers the measure. */
  ghost predicate Closer(q: Queue, used: set<TaskId>, r: Queue, later: set<TaskId>, id: TaskId)
    requires q.tasks.Valid() && r.tasks.Valid()
  {
    var before, after := Missing(q.tasks.data, used, id), Missing(r.tasks.data, later, id);
    after < before || (after == before && Measure(r) < Measure(q))
  }

  /** What a helpful client does next, if there is anything left to do. */
  lemma NextHelp(q: Queue, used: set<TaskId>, id: TaskId) returns (e: Option<Event>)
    requires q.tasks.Valid() && q.tasks.data.Keys <= used
    ensures e.Some? ==>
      && Enabled(q, e.value) && Uses(e.value) !! used && Helpful(e.value)
      && Apply(q, e.value).tasks.Valid()
      && Closer(q, used, Apply(q, e.value), used + Uses(e.value), id)
    ensures e.None? ==> AtRest(q, used, id)
  {
    var ts := q.tasks.data;
    if d :| d in Missing(ts, used, id) {
      e := Some(AddEvent(d, BLANK_TASK));
      AddFillsGap(q, used, id, d);
    } else if k :| k in ts && ts[k].status in {Pending, Running} {
      e := Some(if ts[k].status == Pending then StartEvent(k, 0.0) else CompleteEvent(k, None, 0.0));
      RunKeepsGaps(q, used, e.value, id);
      MeasureDrops(q, e.value);
      assert used + Uses(e.value) == used;
    } else {
      e := None;
    }
  }

  function MeasureAfter(es: seq<Event>): nat {
    ReachableValid(es);
    Measure(After(es))
  }

  lemma HelpOnce(es: seq<Event>, id: TaskId) returns (e: Option<Event>)
    requires Proper(es)
    ensures e.Some? ==>
      && Helpful(e.value) && Proper(es + [e.value])
      && var before, after := Missing(After(es).tasks.data, Used(es), id),
                              Missing(After(es + [e.value]).tasks.data, Used(es + [e.value]), id);
         after < before || (after == before && MeasureAfter(es + [e.value]) < MeasureAfter(es))
    ensures e.None? ==> AtRest(After(es), Used(es), id)
  {
    ReachableValid(es);
    TasksAreUsed(es);
    e := NextHelp(After(es), Used(es), id);
    if e.Some? {
      ProperSnoc(es, e.value);
    }
  }

  /** A helpful client can bring any reachable queue to rest, without using an id twice. */
  lemma {:induction false} HelpToRest(es: seq<Event>, id: TaskId) returns (fs: seq<Event>)
    requires Proper(es)
    ensures Proper(es + fs) && AtRest(After(es + fs), Used(es + fs), id)
    ensures forall e | e in fs :: Helpful(e)
    decreases Missing(After(es).tasks.data, Used(es), id), MeasureAfter(es)
  {
    var e := HelpOnce(es, id);
    if e.None? {
      fs := [];
      assert es + fs == es;
    } else {
      var rest := HelpToRest(es + [e.value], id);
      fs := [e.value] + rest;
      Assoc(es, [e.value], rest);
    }
  }

  /** What is left at a rest: everything that did not complete. */
  function LeftOver(q: Queue, used: set<TaskId>): set<TaskId> {
    set k | k in used && !HasStatus(q, k, Completed)
  }

  lemma WaitsForLeftOver(q: Queue, used: set<TaskId>, id: TaskId, k: TaskId)
    requires Inv(q) && AtRest(q, used, id) && q.tasks.data.Keys <= used && HasStatus(q, k, WaitingDeps)
    ensures exists d | d in LeftOver(q, used) :: d in q.tasks.data[k].deps
  {
    assert DepsAgree(q.tasks.data, q.tasks.data[k]);
    var d :| d in q.tasks.data[k].deps && !HasStatus(q, d, Completed);
    assert Needed(q.tasks.data, d);
    MissingIs(q.tasks.data, used, id, d);
    assert d in LeftOver(q, used);
  }

  /** At rest whatever is not completed is lost. */
  lemma RestIsLost(q: Queue, used: set<TaskId>, id: TaskId)
    requires Inv(q) && AtRest(q, used, id) && q.tasks.data.Keys <= used
    ensures Lost(q, used, LeftOver(q, used))
    ensures HasStatus(q, id, Completed) || id in LeftOver(q, used)
  {
    MissingIs(q.tasks.data, used, id, id);
    forall k | k in LeftOver(q, used) ensures LostMember(q, used, LeftOver(q, used), k) {
      if k in q.tasks.data && !Blocked(q, k) {
        OnlyWaitingIsLeft(q, k);
        WaitsForLeftOver(q, used, id, k);
      }
    }
  }

  /** The task with a given id can still complete, in some continuation of the run that uses no id
      twice, exactly if it is in no lost set: to be cancelled, dead or cleared away, to wait for
      something lost, or to wait in a circle are the only ways to be lost. */
  lemma CanCompleteUnlessLost(es: seq<Event>, id: TaskId)
    requires Proper(es)
    ensures (exists fs :: Proper(es + fs) && HasStatus(After(es + fs), id, Completed))
       <==> !(exists ds :: id in ds && Lost(After(es), Used(es), ds))
  {
    if ds :| id in ds && Lost(After(es), Used(es), ds) {
      forall fs | Proper(es + fs) ensures !HasStatus(After(es + fs), id, Completed) {
        LostForever(es, fs, ds);
      }
    } else {
      var fs := HelpToRest(es, id);
      ReachableInv(es + fs);
      TasksAreUsed(es + fs);
      RestIsLost(After(es + fs), Used(es + fs), id);
      if !HasStatus(After(es + fs), id, Completed) {
        HelpNeverLoses(es, fs, LeftOver(After(es + fs), Used(es + fs)));
      }
    }
  }

  /** In particular a dead letter never completes, whether it is cleared or not. */
  lemma DeadNeverCompletes(es: seq<Event>, fs: seq<Event>, id: TaskId)
    requires Proper(es + fs) && HasStatus(After(es), id, DeadLetter)
    ensures !HasStatus(After(es + fs), id, Completed)
  {
    LostForever(es, fs, {id});
  }
}
