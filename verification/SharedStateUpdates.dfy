/** No lost updates: interleaved atomic updates and compare-and-sets of a key compose. */
module SharedStateUpdates {
  import opened Collections
  import opened SharedStateModel

  /** Whether a step is a successful update of `key`. */
  predicate Commits(s: State, step: Step, key: Key) {
    match step.op
    case UpdateOp(k, f, source) => k == key && Lookup(s.store, key, step.now).Some?
    case CasOp(k, expected, f, source) => k == key && CasSucceeds(s, key, expected, step.now)
    case _ => false
  }

  /** The functions of the successful updates of `key`, in the order in which they committed. */
  function Committed(s: State, steps: seq<Step>, key: Key): seq<Value -> Value> {
    if steps == [] then []
    else
      var before, step := steps[..|steps| - 1], steps[|steps| - 1];
      Committed(s, before, key)
      + if Commits(Run(s, before), step, key) then [step.op.f] else []
  }

  function Fold(v: Value, fs: seq<Value -> Value>): Value {
    if fs == [] then v else fs[|fs| - 1](Fold(v, fs[..|fs| - 1]))
  }

  /** No step sets or deletes the key or clears the store; anything else may happen to it, and
      anything at all to other keys. */
  predicate OnlyUpdates(steps: seq<Step>, key: Key) {
    forall i | 0 <= i < |steps| :: LeavesOrUpdates(steps[i].op, key)
  }

  predicate LeavesOrUpdates(op: Op, key: Key) {
    match op
    case SetOp(k, _, _, _) => k != key
    case DeleteOp(k, _) => k != key
    case ClearOp => false
    case _ => true
  }

  lemma CommitStep(s: State, step: Step, key: Key, v: Value, version: int)
    requires LeavesOrUpdates(step.op, key)
    requires key in s.store.data ==> s.store.data[key].value == v && s.store.data[key].version == version
    ensures key in Do(s, step).store.data ==>
      && key in s.store.data
      && Do(s, step).store.data[key].value == (if Commits(s, step, key) then step.op.f(v) else v)
      && Do(s, step).store.data[key].version == version + (if Commits(s, step, key) then 1 else 0)
    ensures Commits(s, step, key) ==> key in Do(s, step).store.data
  {
  }

  /** In every interleaving, as long as the key stays in the store its value is the fold of the
      successful updates in commit order, and its version has risen by their number. */
  lemma {:induction false} NoLostUpdates(s: State, steps: seq<Step>, key: Key)
    requires key in s.store.data && OnlyUpdates(steps, key)
    ensures var r, fs := Run(s, steps), Committed(s, steps, key);
      key in r.store.data ==>
        && r.store.data[key].value == Fold(s.store.data[key].value, fs)
        && r.store.data[key].version == s.store.data[key].version + |fs|
  {
    if steps != [] {
      var before, step := steps[..|steps| - 1], steps[|steps| - 1];
      assert forall i :: 0 <= i < |before| ==> before[i] == steps[i];
      NoLostUpdates(s, before, key);
      var fs := Committed(s, before, key);
      CommitStep(Run(s, before), step, key, Fold(s.store.data[key].value, fs), s.store.data[key].version + |fs|);
      CommittedSnoc(s, steps, key, s.store.data[key].value);
    }
  }

  lemma CommittedSnoc(s: State, steps: seq<Step>, key: Key, v: Value)
    requires steps != []
    ensures var before, step := steps[..|steps| - 1], steps[|steps| - 1];
      var fs, gs := Committed(s, steps, key), Committed(s, before, key);
      if Commits(Run(s, before), step, key) then
        |fs| == |gs| + 1 && Fold(v, fs) == step.op.f(Fold(v, gs))
      else
        |fs| == |gs| && Fold(v, fs) == Fold(v, gs)
  {
    var before, step := steps[..|steps| - 1], steps[|steps| - 1];
    var gs := Committed(s, before, key);
    if Commits(Run(s, before), step, key) {
      FoldSnoc(v, gs, step.op.f);
    } else {
      assert gs + [] == gs;
    }
  }

  lemma FoldSnoc(v: Value, fs: seq<Value -> Value>, f: Value -> Value)
    ensures Fold(v, fs + [f]) == f(Fold(v, fs))
  {
    assert (fs + [f])[..|fs|] == fs;
  }

  /** A key that never expires is never lost: without a time to live it stays for the whole run. */
  lemma {:induction false} UnexpiringKeyStays(s: State, steps: seq<Step>, key: Key)
    requires key in s.store.data && s.store.data[key].ttl.None? && OnlyUpdates(steps, key)
    ensures key in Run(s, steps).store.data && Run(s, steps).store.data[key].ttl.None?
  {
    if steps != [] {
      var before := steps[..|steps| - 1];
      assert forall i :: 0 <= i < |before| ==> before[i] == steps[i];
      UnexpiringKeyStays(s, before, key);
      assert LeavesOrUpdates(steps[|steps| - 1].op, key);
    }
  }

  /** A key that is not in the store stays out of it, and no update of it succeeds. */
  lemma {:induction false} GoneStaysGone(s: State, steps: seq<Step>, key: Key)
    requires key !in s.store.data && OnlyUpdates(steps, key)
    ensures key !in Run(s, steps).store.data && Committed(s, steps, key) == []
  {
    if steps != [] {
      var before := steps[..|steps| - 1];
      assert forall i :: 0 <= i < |before| ==> before[i] == steps[i];
      GoneStaysGone(s, before, key);
      assert LeavesOrUpdates(steps[|steps| - 1].op, key);
    }
  }
}
