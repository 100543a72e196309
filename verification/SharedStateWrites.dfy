/** What a write leaves behind, told without the functions that compute it: what readers see from
    then on, what is recorded, and where the value of a key comes from in a whole run. */
module SharedStateWrites {
  import opened Collections
  import opened SharedStateModel
  import opened SharedStateExpiry
  import opened SharedStateUpdates

  // ------------------------------------------------------------ a single write

  /** From `now` on a reader of `key` sees `e` until its time to live has run out, then nothing. */
  ghost predicate SeenUntilStale(store: Store, key: Key, e: Entry, now: real) {
    forall n :: n >= now ==>
      Lookup(store, key, n) == if e.ttl.None? || n - now <= e.ttl.value then Some(e) else None
  }

  /** Readers of other keys see what they saw. */
  ghost predicate OthersSeeTheSame(before: Store, after: Store, key: Key) {
    forall k, n :: k != key ==> Lookup(after, k, n) == Lookup(before, k, n)
  }

  /** The time to live given, or else the one the stored entry has, expired or not. */
  function EffectiveTtl(store: Store, key: Key, ttl: Option<real>): Option<real> {
    if ttl.Some? then ttl else if key in store.data then store.data[key].ttl else None
  }

  /** After `set` readers see the value given, under the caller's name and the next version. */
  lemma SetIsSeen(s: State, key: Key, value: Value, source: string, ttl: Option<real>, now: real)
    ensures var prior := if key in s.store.data then Some(s.store.data[key]) else None;
      var version := if prior.Some? then prior.value.version + 1 else 1;
      var createdAt := if prior.Some? then prior.value.createdAt else now;
      var e := Entry(value, version, createdAt, now, EffectiveTtl(s.store, key, ttl), source);
      var r := Set(s, key, value, source, ttl, now);
      && SeenUntilStale(r.store, key, e, now)
      && OthersSeeTheSame(s.store, r.store, key)
      && r.log == s.log + [Change(SET, key, value, if prior.Some? then prior.value.value else Null, version, source)]
  {
  }

  /** What a successful update leaves: the new value, one version on, fresh for another time to live. */
  ghost predicate UpdateIsSeen(s: State, r: State, key: Key, value: Value, source: string, now: real) {
    && key in s.store.data
    && var prior := s.store.data[key];
       && SeenUntilStale(r.store, key, Entry(value, prior.version + 1, prior.createdAt, now, prior.ttl, source), now)
       && OthersSeeTheSame(s.store, r.store, key)
       && r.log == s.log + [Change(SET, key, value, prior.value, prior.version + 1, source)]
  }

  /** Nothing happened that a reader could see, now or later, and nothing was logged. */
  ghost predicate NothingSeen(s: State, r: State, now: real) {
    (forall k :: Same(r.store, s.store, k, now)) && r.log == s.log
  }

  lemma AtomicUpdateIsSeen(s: State, key: Key, f: Value -> Value, source: string, now: real)
    ensures var seen, r := Lookup(s.store, key, now), AtomicUpdate(s, key, f, source, now);
      if seen.Some? then UpdateIsSeen(s, r, key, f(seen.value.value), source, now) else NothingSeen(s, r, now)
  {
    if Lookup(s.store, key, now).None? {
      TouchIsInvisible(s, key, now);
    } else {
      WriteIsSeen(s, key, f(s.store.data[key].value), source, now);
    }
  }

  lemma CompareAndSetIsSeen(s: State, key: Key, expected: Value, value: Value, source: string, now: real)
    ensures var seen, r := Lookup(s.store, key, now), CompareAndSet(s, key, expected, value, source, now);
      if seen.Some? && seen.value.value == expected then UpdateIsSeen(s, r, key, value, source, now)
      else NothingSeen(s, r, now)
    ensures CasSucceeds(s, key, expected, now)
       <==> exists e :: Lookup(s.store, key, now) == Some(e) && e.value == expected
  {
    if CasSucceeds(s, key, expected, now) {
      WriteIsSeen(s, key, value, source, now);
    } else {
      TouchIsInvisible(s, key, now);
    }
  }

  lemma WriteIsSeen(s: State, key: Key, value: Value, source: string, now: real)
    requires key in s.store.data
    ensures UpdateIsSeen(s, Write(s, key, value, source, now), key, value, source, now)
  {
  }

  /** Deleting takes the key away for good, and is recorded if there was anything stored. */
  lemma DeleteIsSeen(s: State, key: Key, source: string)
    ensures var r := Delete(s, key, source);
      && (forall n :: Lookup(r.store, key, n) == None)
      && OthersSeeTheSame(s.store, r.store, key)
      && r.log == s.log + (if key in s.store.data then
           [Change(DELETE, key, Null, s.store.data[key].value, s.store.data[key].version, source)] else [])
      && (Deletes(s, key) <==> key in s.store.data)
  {
    forall k, n
      ensures Lookup(Delete(s, key, source).store, k, n) == if k == key then None else Lookup(s.store, k, n)
    {
      DeleteSeen(s, key, source, k);
    }
  }

  /** The event that records the expiry of `key`. */
  function ExpiryOf(store: Store, key: Key): Change
    requires key in store.data
  {
    Change(EXPIRED, key, Null, store.data[key].value, store.data[key].version, "ttl_cleanup")
  }

  lemma {:induction false} OneEventEach(store: Store, keys: seq<Key>)
    requires forall k | k in keys :: k in store.data
    ensures |ExpiryEvents(store, keys)| == |keys|
    ensures forall i :: 0 <= i < |keys| ==> ExpiryEvents(store, keys)[i] == ExpiryOf(store, keys[i])
  {
    if keys != [] {
      OneEventEach(store, keys[..|keys| - 1]);
    }
  }

  /** A clean-up is invisible to readers. */
  lemma CleanupIsUnseen(s: State, now: real)
    requires s.store.Valid()
    ensures forall k :: Same(Cleanup(s, now).store, s.store, k, now)
  {
    SweepIsInvisible(s.store, now);
  }

  /** It records each entry that it drops, once, in store order. */
  lemma CleanupIsRecorded(s: State, now: real) returns (events: seq<Change>)
    requires s.store.Valid()
    ensures var r, gone := Cleanup(s, now), ExpiredKeys(s.store, now);
      && r.log == s.log + events && |events| == |gone|
      && (forall k :: k in gone <==> k in s.store.data && k !in r.store.data)
      && (forall k :: k in gone <==> k in s.store.data && Lookup(s.store, k, now).None?)
      && forall i :: 0 <= i < |gone| ==> gone[i] in s.store.data && events[i] == ExpiryOf(s.store, gone[i])
  {
    var gone := ExpiredKeys(s.store, now);
    ExpiredAre(s.store, now);
    OneEventEach(s.store, gone);
    events := ExpiryEvents(s.store, gone);
    assert forall i :: 0 <= i < |gone| ==> gone[i] in gone;
  }

  /** The keys that a sweep drops are those stored that readers no longer see. */
  lemma ExpiredAre(store: Store, now: real)
    requires store.Valid()
    ensures forall k :: k in ExpiredKeys(store, now) <==> k in store.data && k !in SweepStore(store, now).data
    ensures forall k :: k in ExpiredKeys(store, now) <==> k in store.data && Lookup(store, k, now).None?
  {
    FilterMembers(store.keys, k => k in store.data && Expired(store.data[k], now));
  }

  // ------------------------------------------------------------------ in a run

  lemma {:induction false} RunConcat(s: State, a: seq<Step>, b: seq<Step>)
    ensures Run(s, a + b) == Run(Run(s, a), b)
    decreases |b|
  {
    if b == [] {
      assert a + b == a;
    } else {
      var init, last := b[..|b| - 1], b[|b| - 1];
      InitLast(b);
      Assoc(a, init, [last]);
      assert (a + b)[..|a + b| - 1] == a + init;
      RunConcat(s, a, init);
    }
  }

  /** The `set` to which the value of a key goes back. */
  ghost predicate LastSet(steps: seq<Step>, key: Key, i: nat) {
    && i < |steps|
    && steps[i].op.SetOp? && steps[i].op.key == key
    && OnlyUpdates(steps[i + 1..], key)
  }

  /** What is stored was set, and not deleted or cleared since. */
  lemma {:induction false} StoredWasSet(steps: seq<Step>, key: Key) returns (i: nat)
    requires key in Run(EMPTY, steps).store.data
    ensures LastSet(steps, key, i)
  {
    var before, step := steps[..|steps| - 1], steps[|steps| - 1];
    if step.op.SetOp? && step.op.key == key {
      i := |steps| - 1;
    } else {
      assert LeavesOrUpdates(step.op, key) && key in Run(EMPTY, before).store.data;
      i := StoredWasSet(before, key);
      assert steps[i + 1..] == before[i + 1..] + [step];
    }
  }

  lemma SetThenUpdates(steps: seq<Step>, key: Key, i: nat)
    requires key in Run(EMPTY, steps).store.data && LastSet(steps, key, i)
    ensures Run(EMPTY, steps).store.data[key].value
         == Fold(steps[i].op.value, Committed(Run(EMPTY, steps[..i + 1]), steps[i + 1..], key))
  {
    var first, rest := steps[..i + 1], steps[i + 1..];
    assert steps == first + rest;
    RunConcat(EMPTY, first, rest);
    assert first[..i] == steps[..i] && first[|first| - 1] == steps[i];
    assert Run(EMPTY, first) == Do(Run(EMPTY, steps[..i]), steps[i]);
    assert Run(EMPTY, first).store.data[key].value == steps[i].op.value;
    NoLostUpdates(Run(EMPTY, first), rest, key);
  }

  /** In every run the value of a stored key is the one its last `set` gave, followed by the updates
      that succeeded since, in the order in which they committed. */
  lemma ValueComesFrom(steps: seq<Step>, key: Key) returns (i: nat)
    requires key in Run(EMPTY, steps).store.data
    ensures LastSet(steps, key, i)
    ensures Run(EMPTY, steps).store.data[key].value
         == Fold(steps[i].op.value, Committed(Run(EMPTY, steps[..i + 1]), steps[i + 1..], key))
  {
    i := StoredWasSet(steps, key);
    SetThenUpdates(steps, key, i);
  }
}
