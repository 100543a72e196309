/** Lazy expiry: dropping expired entries early, late or never makes no difference to readers,
    up to the next `set`; and what exactly it makes a difference to. */
module SharedStateExpiry {
  import opened Collections
  import opened SharedStateModel

  /** From `t` on, readers of `key` can not tell the stores apart. */
  ghost predicate Same(a: Store, b: Store, key: Key, t: real) {
    forall n :: n >= t ==> Lookup(a, key, n) == Lookup(b, key, n)
  }

  lemma ExpiredStays(e: Entry, now: real, later: real)
    requires Expired(e, now) && now <= later
    ensures Expired(e, later)
  {
  }

  lemma KeepData(store: Store, p: Key -> bool, key: Key)
    ensures key in Keep(store, p).data <==> key in store.data && p(key)
    ensures key in Keep(store, p).data ==> Keep(store, p).data[key] == store.data[key]
  {
  }

  /** A sweep is invisible, for every key and from then on. */
  lemma SweepIsInvisible(store: Store, now: real)
    ensures forall key :: Same(SweepStore(store, now), store, key, now)
  {
    forall key, n | n >= now ensures Lookup(SweepStore(store, now), key, n) == Lookup(store, key, n) {
      if key in store.data && Expired(store.data[key], now) {
        ExpiredStays(store.data[key], now, n);
      }
    }
  }

  /** So is the silent removal done by a read. */
  lemma TouchIsInvisible(s: State, k: Key, now: real)
    ensures forall key :: Same(Touch(s, k, now).store, s.store, key, now)
  {
    forall key, n | n >= now ensures Lookup(Touch(s, k, now).store, key, n) == Lookup(s.store, key, n) {
      if k in s.store.data && Expired(s.store.data[k], now) {
        ExpiredStays(s.store.data[k], now, n);
      }
    }
  }

  /** The view behind `keys` and `items` is what the single-key reads see one by one. */
  lemma LiveIsPointwise(store: Store, now: real, key: Key)
    ensures key in Live(store, now) <==> Lookup(store, key, now).Some?
    ensures key in Live(store, now) ==> Lookup(store, key, now) == Some(Live(store, now)[key])
  {
  }

  /** Indistinguishable stores stay so when both lose what readers can not see anyway. */
  lemma TouchKeepsSame(a: State, b: State, k: Key, key: Key, now: real)
    requires Same(a.store, b.store, key, now)
    ensures Same(Touch(a, k, now).store, Touch(b, k, now).store, key, now)
  {
    TouchIsInvisible(a, k, now);
    TouchIsInvisible(b, k, now);
    assert Same(Touch(a, k, now).store, a.store, key, now) && Same(Touch(b, k, now).store, b.store, key, now);
  }

  lemma SweepKeepsSame(a: State, b: State, key: Key, now: real)
    requires Same(a.store, b.store, key, now)
    ensures Same(SweepStore(a.store, now), SweepStore(b.store, now), key, now)
  {
    SweepIsInvisible(a.store, now);
    SweepIsInvisible(b.store, now);
    assert Same(SweepStore(a.store, now), a.store, key, now) && Same(SweepStore(b.store, now), b.store, key, now);
  }

  /** Writing a live key: both stores hold the same entry, so they get the same entry. */
  lemma WriteKeepsSame(a: State, b: State, k: Key, va: Value, vb: Value, source: string, key: Key, now: real)
    requires Same(a.store, b.store, key, now) && k in a.store.data && k in b.store.data
    requires k == key ==> va == vb && Lookup(a.store, key, now).Some?
    ensures Same(Write(a, k, va, source, now).store, Write(b, k, vb, source, now).store, key, now)
  {
    assert Lookup(a.store, key, now) == Lookup(b.store, key, now);
  }

  lemma UpdateKeepsSame(a: State, b: State, key: Key, step: Step)
    requires step.op.UpdateOp? || step.op.CasOp?
    requires Same(a.store, b.store, key, step.now)
    ensures Same(Do(a, step).store, Do(b, step).store, key, step.now)
  {
    var k := step.op.key;
    assert Lookup(a.store, key, step.now) == Lookup(b.store, key, step.now);
    if k == key {
      TouchKeepsSame(a, b, k, key, step.now);
      if Lookup(a.store, k, step.now).Some? {
        var v := step.op.f(a.store.data[k].value);
        WriteKeepsSame(a, b, k, v, v, step.op.source, key, step.now);
      }
    } else {
      OtherKeyKept(a, step, key);
      OtherKeyKept(b, step, key);
    }
  }

  lemma DeleteSeen(s: State, k: Key, source: string, key: Key)
    ensures forall n :: Lookup(Delete(s, k, source).store, key, n)
                        == if key == k then None else Lookup(s.store, key, n)
  {
  }

  /** Sections other than a `set` of the key keep indistinguishable stores so. */
  lemma StepKeepsSame(a: State, b: State, key: Key, step: Step)
    requires Same(a.store, b.store, key, step.now)
    requires step.op.SetOp? ==> step.op.key != key
    ensures Same(Do(a, step).store, Do(b, step).store, key, step.now)
  {
    match step.op
    case SetOp(k, _, _, _) => OtherKeyKept(a, step, key); OtherKeyKept(b, step, key);
    case DeleteOp(k, source) => DeleteSeen(a, k, source, key); DeleteSeen(b, k, source, key);
    case UpdateOp(k, f, source) => UpdateKeepsSame(a, b, key, step);
    case CasOp(k, expected, f, source) => UpdateKeepsSame(a, b, key, step);
    case ReadOp(k) => TouchKeepsSame(a, b, k, key, step.now);
    case SweepOp => SweepKeepsSame(a, b, key, step.now);
    case CleanupOp => SweepKeepsSame(a, b, key, step.now);
    case ClearOp =>
  }

  /** Sections on one key do not touch another. */
  lemma OtherKeyKept(s: State, step: Step, key: Key)
    requires step.op.SetOp? || step.op.UpdateOp? || step.op.CasOp?
    requires step.op.key != key
    ensures forall n :: Lookup(Do(s, step).store, key, n) == Lookup(s.store, key, n)
  {
  }

  /** Sweeping at any point changes no later read of a key, until the key is next set. */
  lemma {:induction false} SweepChangesNoRead(s: State, t: real, steps: seq<Step>, key: Key)
    requires ClockFrom(t, steps)
    requires forall i :: 0 <= i < |steps| && steps[i].op.SetOp? ==> steps[i].op.key != key
    ensures var last := if steps == [] then t else steps[|steps| - 1].now;
      Same(Run(Sweep(s, t), steps).store, Run(s, steps).store, key, last)
  {
    if steps == [] {
      SweepIsInvisible(s.store, t);
    } else {
      var before, step := steps[..|steps| - 1], steps[|steps| - 1];
      SweepChangesNoRead(s, t, before, key);
      StepKeepsSame(Run(Sweep(s, t), before), Run(s, before), key, step);
    }
  }

  // ------------------------------------------- what expiry is not hidden from

  /** Two stores in which readers of `key` see the same values from `t` on. */
  ghost predicate SameValues(a: Store, b: Store, key: Key, t: real) {
    forall n :: n >= t ==>
      && Lookup(a, key, n).Some? == Lookup(b, key, n).Some?
      && (Lookup(a, key, n).Some? ==> Lookup(a, key, n).value.value == Lookup(b, key, n).value.value)
  }

  /** A `set` after a sweep and a `set` without it leave readers the same values exactly if the
      entry had not expired or the call brings a time to live: otherwise the unswept entry's old
      time to live lives on, and the value will vanish in one run and stay in the other. */
  lemma SetAfterSweep(s: State, key: Key, value: Value, source: string, ttl: Option<real>, now: real)
    ensures SameValues(Set(Sweep(s, now), key, value, source, ttl, now).store,
                       Set(s, key, value, source, ttl, now).store, key, now)
       <==> !(key in s.store.data && Expired(s.store.data[key], now) && ttl.None?)
  {
    var a := Set(Sweep(s, now), key, value, source, ttl, now).store;
    var b := Set(s, key, value, source, ttl, now).store;
    KeepData(s.store, k => !(k in s.store.data && Expired(s.store.data[k], now)), key);
    if key in s.store.data && Expired(s.store.data[key], now) && ttl.None? {
      var late := now + s.store.data[key].ttl.value + 1.0;
      var n := if late < now then now else late;
      assert Lookup(a, key, n).Some? && Lookup(b, key, n).None?;
    }
  }

  /** The versions agree exactly if there was nothing expired to continue. */
  lemma SetVersionAfterSweep(s: State, key: Key, value: Value, source: string, ttl: Option<real>, now: real)
    requires key in s.store.data ==> s.store.data[key].version >= 1
    ensures SetEntry(SweepStore(s.store, now), key, value, source, ttl, now).version
              == SetEntry(s.store, key, value, source, ttl, now).version
       <==> !(key in s.store.data && Expired(s.store.data[key], now))
  {
  }

  /** `delete` returns true exactly if it took something from readers, now or later, unless an
      expired entry is in place: then it returns true, and no reader can tell that it was called. */
  lemma DeleteAgreesWithReaders(s: State, key: Key, source: string, now: real)
    ensures (Deletes(s, key) <==> !Same(Delete(s, key, source).store, s.store, key, now))
       <==> !(key in s.store.data && Expired(s.store.data[key], now))
  {
    var after := Delete(s, key, source).store;
    DeleteSeen(s, key, source, key);
    if key in s.store.data && Expired(s.store.data[key], now) {
      forall n | n >= now ensures Lookup(after, key, n) == Lookup(s.store, key, n) {
        ExpiredStays(s.store.data[key], now, n);
      }
    } else if key in s.store.data {
      assert Lookup(after, key, now) != Lookup(s.store, key, now);
    }
  }

  // ------------------------------------------------------------- an example

  /** A value with a time to live of one second, stored at time zero and not read since. */
  function StaleRun(key: Key, value: Value, source: string): seq<Step> {
    [Step(0.0, SetOp(key, value, source, Some(1.0)))]
  }

  /** Five seconds later the entry is still there, expired. A `set` then gets version 2, and what it
      stores is gone two seconds later; after a sweep it gets version 1 and stays. A `delete` returns
      true. */
  lemma StaleEntryShows(key: Key, value: Value, source: string)
    ensures var s := Run(EMPTY, StaleRun(key, value, source));
      && key in s.store.data && Expired(s.store.data[key], 5.0)
      && Lookup(s.store, key, 5.0) == None && Deletes(s, key)
      && var a, b := Set(s, key, value, source, None, 5.0).store, Set(Sweep(s, 5.0), key, value, source, None, 5.0).store;
         && a.data[key].version == 2 && Lookup(a, key, 7.0) == None
         && b.data[key].version == 1 && forall n :: Lookup(b, key, n).Some?
  {
    var steps := StaleRun(key, value, source);
    assert steps[..|steps| - 1] == [];
    assert Run(EMPTY, steps) == Set(EMPTY, key, value, source, Some(1.0), 0.0);
    KeepData(Run(EMPTY, steps).store, k => !(k in Run(EMPTY, steps).store.data && Expired(Run(EMPTY, steps).store.data[k], 5.0)), key);
  }
}
