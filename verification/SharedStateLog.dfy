/** The change log: each key's events form a chain, and replaying them gives the store back. */
module SharedStateLog {
  import opened Collections
  import opened SharedStateModel

  // --------------------------------------------------------------- event chain

  function LastEvent(log: seq<Change>, key: Key): Option<Change> {
    if log == [] then None
    else if log[|log| - 1].key == key then Some(log[|log| - 1])
    else LastEvent(log[..|log| - 1], key)
  }

  /** What may follow the last event of the same key: an update of it, its end, or a new life. */
  predicate Follows(before: Option<Change>, e: Change) {
    match e.kind
    case SET =>
      || (e.version == 1 && e.oldValue == Null)
      || (before.Some? && before.value.kind == SET
          && e.version == before.value.version + 1 && e.oldValue == before.value.value)
    case _ =>
      && before.Some? && before.value.kind == SET
      && e.version == before.value.version && e.oldValue == before.value.value && e.value == Null
  }

  predicate Chained(log: seq<Change>) {
    log == []
    || (Chained(log[..|log| - 1]) && Follows(LastEvent(log[..|log| - 1], log[|log| - 1].key), log[|log| - 1]))
  }

  /** The last event of a stored key is the `set` that gave it its value and version. */
  ghost predicate Recorded(s: State) {
    forall k | k in s.store.data ::
      && LastEvent(s.log, k).Some?
      && LastEvent(s.log, k).value.kind == SET
      && LastEvent(s.log, k).value.value == s.store.data[k].value
      && LastEvent(s.log, k).value.version == s.store.data[k].version
      && s.store.data[k].version >= 1
  }

  ghost predicate LogOk(s: State) {
    Chained(s.log) && Recorded(s)
  }

  lemma LastEventSnoc(log: seq<Change>, e: Change)
    ensures forall k :: LastEvent(log + [e], k) == if e.key == k then Some(e) else LastEvent(log, k)
    ensures Chained(log + [e]) <==> Chained(log) && Follows(LastEvent(log, e.key), e)
  {
    assert (log + [e])[..|log|] == log;
  }

  /** Dropping entries needs no event. */
  lemma SubStoreOk(s: State, store: Store)
    requires LogOk(s)
    requires forall k | k in store.data :: k in s.store.data && store.data[k] == s.store.data[k]
    ensures LogOk(s.(store := store))
  {
  }

  lemma SetOk(s: State, key: Key, value: Value, source: string, ttl: Option<real>, now: real)
    requires LogOk(s)
    ensures LogOk(Set(s, key, value, source, ttl, now))
  {
    var e := Set(s, key, value, source, ttl, now).log[|s.log|];
    LastEventSnoc(s.log, e);
  }

  lemma DeleteOk(s: State, key: Key, source: string)
    requires LogOk(s)
    ensures LogOk(Delete(s, key, source))
  {
    if key in s.store.data {
      LastEventSnoc(s.log, Delete(s, key, source).log[|s.log|]);
    }
  }

  lemma WriteOk(s: State, key: Key, value: Value, source: string, now: real)
    requires LogOk(s) && key in s.store.data
    ensures LogOk(Write(s, key, value, source, now))
  {
    LastEventSnoc(s.log, Write(s, key, value, source, now).log[|s.log|]);
  }

  /** Logging the end of the first keys, none of which is kept. */
  lemma {:induction false} ExpiryEventsOk(s: State, keys: seq<Key>, kept: Store)
    requires LogOk(s) && Distinct(keys)
    requires forall k | k in kept.data :: k in s.store.data && kept.data[k] == s.store.data[k] && k !in keys
    ensures LogOk(State(kept, s.log + ExpiryEvents(s.store, keys)))
    ensures forall k | k !in keys :: LastEvent(s.log + ExpiryEvents(s.store, keys), k) == LastEvent(s.log, k)
  {
    if keys == [] {
      assert s.log + [] == s.log;
    } else {
      var init, k := keys[..|keys| - 1], keys[|keys| - 1];
      ExpiryEventsOk(s, init, kept);
      assert k !in init;
      var log := s.log + ExpiryEvents(s.store, init);
      if k in s.store.data {
        var e := Change(EXPIRED, k, Null, s.store.data[k].value, s.store.data[k].version, "ttl_cleanup");
        assert s.log + ExpiryEvents(s.store, keys) == log + [e];
        LastEventSnoc(log, e);
      } else {
        assert s.log + ExpiryEvents(s.store, keys) == log;
      }
    }
  }

  lemma CleanupOk(s: State, now: real)
    requires LogOk(s) && s.store.Valid()
    ensures LogOk(Cleanup(s, now))
  {
    FilterMembers(s.store.keys, k => k in s.store.data && Expired(s.store.data[k], now));
    FilterDistinct(s.store.keys, k => k in s.store.data && Expired(s.store.data[k], now));
    ExpiryEventsOk(s, ExpiredKeys(s.store, now), SweepStore(s.store, now));
  }

  lemma StepKeepsValid(s: State, step: Step)
    requires s.store.Valid()
    ensures Do(s, step).store.Valid()
  {
    match step.op
    case SetOp(_, _, _, _) =>
    case SweepOp => KeepValid(s.store, k => !(k in s.store.data && Expired(s.store.data[k], step.now)));
    case CleanupOp => KeepValid(s.store, k => !(k in s.store.data && Expired(s.store.data[k], step.now)));
    case ClearOp =>
    case DeleteOp(k, _) => RemoveValid(s.store, k);
    case UpdateOp(k, _, _) => RemoveValid(s.store, k);
    case CasOp(k, _, _, _) => RemoveValid(s.store, k);
    case ReadOp(k) => RemoveValid(s.store, k);
  }

  lemma StepKeepsLogOk(s: State, step: Step)
    requires LogOk(s) && s.store.Valid()
    ensures LogOk(Do(s, step))
  {
    match step.op
    case SetOp(k, v, source, ttl) => SetOk(s, k, v, source, ttl, step.now);
    case DeleteOp(k, source) => DeleteOk(s, k, source);
    case UpdateOp(k, f, source) =>
      if Lookup(s.store, k, step.now).Some? {
        WriteOk(s, k, f(s.store.data[k].value), source, step.now);
      } else {
        SubStoreOk(s, Touch(s, k, step.now).store);
      }
    case CasOp(k, expected, f, source) =>
      if CasSucceeds(s, k, expected, step.now) {
        WriteOk(s, k, f(expected), source, step.now);
      } else {
        SubStoreOk(s, Touch(s, k, step.now).store);
      }
    case ReadOp(k) => SubStoreOk(s, Touch(s, k, step.now).store);
    case SweepOp => SubStoreOk(s, SweepStore(s.store, step.now));
    case CleanupOp => CleanupOk(s, step.now);
    case ClearOp => SubStoreOk(s, EmptyDict());
  }

  /** In every run from an empty store the events of each key form a chain that ends in what
      the store holds. */
  lemma {:induction false} LogIsChained(steps: seq<Step>)
    ensures LogOk(Run(EMPTY, steps)) && Run(EMPTY, steps).store.Valid()
  {
    if steps != [] {
      LogIsChained(steps[..|steps| - 1]);
      StepKeepsLogOk(Run(EMPTY, steps[..|steps| - 1]), steps[|steps| - 1]);
      StepKeepsValid(Run(EMPTY, steps[..|steps| - 1]), steps[|steps| - 1]);
    }
  }

  // -------------------------------------------------------------------- replay

  datatype Replayed = Replayed(value: Value, version: int)

  /** What somebody who only sees the events believes the store to hold. */
  function Replay(log: seq<Change>): map<Key, Replayed> {
    if log == [] then map[]
    else
      var e := log[|log| - 1];
      var before := Replay(log[..|log| - 1]);
      if e.kind == SET then before[e.key := Replayed(e.value, e.version)] else before - {e.key}
  }

  lemma {:induction false} ReplayIsLastEvent(log: seq<Change>, key: Key)
    ensures key in Replay(log) <==> LastEvent(log, key).Some? && LastEvent(log, key).value.kind == SET
    ensures key in Replay(log) ==>
      Replay(log)[key] == Replayed(LastEvent(log, key).value.value, LastEvent(log, key).value.version)
  {
    if log != [] {
      ReplayIsLastEvent(log[..|log| - 1], key);
    }
  }

  /** Keys whose entry a step drops without an event. */
  function DroppedSilently(s: State, step: Step): set<Key> {
    match step.op
    case ClearOp => s.store.data.Keys
    case SweepOp => set k | k in s.store.data && Expired(s.store.data[k], step.now)
    case ReadOp(k) => LazilyDropped(s, k, step.now)
    case UpdateOp(k, _, _) => LazilyDropped(s, k, step.now)
    case CasOp(k, _, _, _) => LazilyDropped(s, k, step.now)
    case _ => {}
  }

  function LazilyDropped(s: State, key: Key, now: real): set<Key> {
    if key in s.store.data && Expired(s.store.data[key], now) then {key} else {}
  }

  /** Keys that silent expiry or `clear` took from the store and nobody has set since. */
  function Ghosts(steps: seq<Step>): set<Key> {
    if steps == [] then {}
    else
      var s, step := Run(EMPTY, steps[..|steps| - 1]), steps[|steps| - 1];
      var before := Ghosts(steps[..|steps| - 1]) + DroppedSilently(s, step);
      if step.op.SetOp? then before - {step.op.key} else before
  }

  lemma {:induction false} ExpiryEventsLast(store: Store, keys: seq<Key>, log: seq<Change>, k: Key)
    requires Distinct(keys) && forall x | x in keys :: x in store.data
    ensures k in keys ==> LastEvent(log + ExpiryEvents(store, keys), k).Some?
                          && LastEvent(log + ExpiryEvents(store, keys), k).value.kind == EXPIRED
    ensures k !in keys ==> LastEvent(log + ExpiryEvents(store, keys), k) == LastEvent(log, k)
  {
    if keys == [] {
      assert log + [] == log;
    } else {
      var init, x := keys[..|keys| - 1], keys[|keys| - 1];
      ExpiryEventsLast(store, init, log, k);
      var e := Change(EXPIRED, x, Null, store.data[x].value, store.data[x].version, "ttl_cleanup");
      assert log + ExpiryEvents(store, keys) == (log + ExpiryEvents(store, init)) + [e];
      LastEventSnoc(log + ExpiryEvents(store, init), e);
    }
  }

  predicate ReplayHas(log: seq<Change>, k: Key) {
    LastEvent(log, k).Some? && LastEvent(log, k).value.kind == SET
  }

  /** Replay has the key exactly if the store does or it is lost (`g`), never both. */
  ghost predicate Accounted(s: State, k: Key, g: bool) {
    && (ReplayHas(s.log, k) <==> k in s.store.data || g)
    && !(k in s.store.data && g)
  }

  lemma LogEventAccounted(s: State, r: State, e: Change, k: Key, g: bool)
    requires Accounted(s, k, g) && r.log == s.log + [e]
    requires e.kind == SET ==> r.store.data.Keys == s.store.data.Keys + {e.key}
    requires e.kind != SET ==> e.key in s.store.data && r.store.data.Keys == s.store.data.Keys - {e.key}
    ensures Accounted(r, k, g && !(e.kind == SET && e.key == k))
  {
    LastEventSnoc(s.log, e);
  }

  lemma TouchAccounted(s: State, key: Key, now: real, k: Key, g: bool)
    requires Accounted(s, k, g) && s.store.Valid()
    ensures Accounted(Touch(s, key, now), k, g || k in LazilyDropped(s, key, now))
  {
    RemoveValid(s.store, key);
  }

  lemma CleanupAccounted(s: State, now: real, k: Key, g: bool)
    requires Accounted(s, k, g) && s.store.Valid()
    ensures Accounted(Cleanup(s, now), k, g)
  {
    FilterMembers(s.store.keys, x => x in s.store.data && Expired(s.store.data[x], now));
    FilterDistinct(s.store.keys, x => x in s.store.data && Expired(s.store.data[x], now));
    ExpiryEventsLast(s.store, ExpiredKeys(s.store, now), s.log, k);
  }

  lemma UpdateAccounted(s: State, step: Step, k: Key, g: bool)
    requires step.op.UpdateOp? || step.op.CasOp?
    requires Accounted(s, k, g) && s.store.Valid()
    ensures Accounted(Do(s, step), k, g || k in DroppedSilently(s, step))
  {
    var key := step.op.key;
    var r := Do(s, step);
    if r.log != s.log {
      assert key in s.store.data && !Expired(s.store.data[key], step.now);
      LogEventAccounted(s, r, r.log[|s.log|], k, g);
    } else {
      TouchAccounted(s, key, step.now, k, g);
    }
  }

  lemma StepAccounted(s: State, step: Step, k: Key, g: bool)
    requires Accounted(s, k, g) && s.store.Valid()
    ensures Accounted(Do(s, step), k,
                      (g || k in DroppedSilently(s, step)) && !(step.op.SetOp? && step.op.key == k))
  {
    var r := Do(s, step);
    match step.op
    case SetOp(key, v, source, ttl) => LogEventAccounted(s, r, r.log[|s.log|], k, g);
    case DeleteOp(key, source) =>
      RemoveValid(s.store, key);
      if key in s.store.data {
        LogEventAccounted(s, r, r.log[|s.log|], k, g);
      }
    case UpdateOp(_, _, _) => UpdateAccounted(s, step, k, g);
    case CasOp(_, _, _, _) => UpdateAccounted(s, step, k, g);
    case ReadOp(key) => TouchAccounted(s, key, step.now, k, g);
    case SweepOp =>
    case CleanupOp => CleanupAccounted(s, step.now, k, g);
    case ClearOp =>
  }

  /** The store is the replay of the log, less exactly the keys lost to silent expiry or `clear`
      and not set since. */
  lemma {:induction false} StoreIsReplay(steps: seq<Step>)
    ensures var s := Run(EMPTY, steps);
      && Replay(s.log).Keys == s.store.data.Keys + Ghosts(steps)
      && s.store.data.Keys !! Ghosts(steps)
      && forall k | k in s.store.data ::
           Replay(s.log)[k] == Replayed(s.store.data[k].value, s.store.data[k].version)
  {
    var s := Run(EMPTY, steps);
    LogIsChained(steps);
    forall k ensures k in Replay(s.log) <==> k in s.store.data.Keys + Ghosts(steps)
             ensures !(k in s.store.data && k in Ghosts(steps))
             ensures k in s.store.data ==>
               k in Replay(s.log) && Replay(s.log)[k] == Replayed(s.store.data[k].value, s.store.data[k].version)
    {
      ReplayIsLastEvent(s.log, k);
      GhostsAreExact(steps, k);
    }
  }

  lemma {:induction false} GhostsAreExact(steps: seq<Step>, k: Key)
    ensures Accounted(Run(EMPTY, steps), k, k in Ghosts(steps))
  {
    if steps != [] {
      var before, step := steps[..|steps| - 1], steps[|steps| - 1];
      GhostsAreExact(before, k);
      LogIsChained(before);
      StepAccounted(Run(EMPTY, before), step, k, k in Ghosts(before));
    }
  }
}
