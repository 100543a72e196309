/** The store as the program keeps it: entry objects changed in place, and a bounded log.
    Every method is one lock-held section; `now` is its reading of the clock. */
module SharedState {
  import opened Collections
  import opened SharedStateModel

  class StateEntry {
    const key: Key
    const createdAt: real
    var value: Value
    var version: int
    var updatedAt: real
    var ttl: Option<real>
    var createdBy: string

    constructor (key: Key, value: Value, now: real, ttl: Option<real>, source: string)
      ensures this.key == key && View() == Entry(value, 1, now, now, ttl, source)
    {
      this.key, this.value, version, createdAt, updatedAt := key, value, 1, now, now;
      this.ttl, createdBy := ttl, source;
    }

    function View(): Entry
      reads this
    {
      Entry(value, version, createdAt, updatedAt, ttl, createdBy)
    }

    method Rewrite(value: Value, source: string, now: real)
      modifies this
      ensures View() == Written(old(View()), value, source, now)
    {
      this.value := value;
      version := version + 1;
      updatedAt := now;
      createdBy := source;
    }
  }

  class SharedState {
    var store: Dict<Key, StateEntry>
    var changeLog: seq<Change>
    /** Every event so far; the log keeps the last ones. */
    ghost var events: seq<Change>

    ghost predicate Valid()
      reads this, store.data.Values
    {
      && store.Valid()
      && (forall k | k in store.data :: store.data[k].key == k)
      && changeLog == LastN(events, LOG_LIMIT)
    }

    function Entries(): map<Key, Entry>
      reads this`store, store.data.Values
    {
      map k | k in store.data :: store.data[k].View()
    }

    ghost function View(): State
      reads this, store.data.Values
    {
      State(Dict(store.keys, Entries()), events)
    }

    constructor ()
      ensures Valid() && View() == EMPTY
    {
      store, changeLog, events := EmptyDict(), [], [];
    }

    /** When only `e` was written, and is stored under its key, only its view moved. */
    twostate lemma EntriesAfterChange(new e: StateEntry)
      requires old(Valid()) && store.data == old(store.data)[e.key := e]
      requires forall k | k in old(store.data) && k != e.key :: unchanged(old(store.data)[k])
      ensures Entries() == old(Entries())[e.key := e.View()]
    {
    }

    twostate lemma EntriesAfterKeep(p: Key -> bool)
      requires store == Keep(old(store), p)
      requires forall k | k in old(store.data) :: unchanged(old(store.data)[k])
      ensures Dict(store.keys, Entries()) == Keep(Dict(old(store).keys, old(Entries())), p)
    {
    }

    twostate lemma EntriesAfterRemove(key: Key)
      requires store == Remove(old(store), key)
      requires forall k | k in old(store.data) :: unchanged(old(store.data)[k])
      ensures Dict(store.keys, Entries()) == Remove(Dict(old(store).keys, old(Entries())), key)
    {
    }

    method Log(e: Change)
      requires changeLog == LastN(events, LOG_LIMIT)
      modifies this`changeLog, this`events
      ensures events == old(events) + [e]
      ensures changeLog == LastN(events, LOG_LIMIT) == LastN(events, 1000)
    {
      BoundedAppend(events, e, LOG_LIMIT);
      changeLog := LastN(changeLog + [e], LOG_LIMIT);
      events := events + [e];
    }

    method IsExpired(e: StateEntry, now: real) returns (expired: bool)
      ensures expired == Expired(e.View(), now)
    {
      if e.ttl.None? {
        return false;
      }
      var elapsed := now - e.updatedAt;
      return elapsed > e.ttl.value;
    }

    method DeleteUnlocked(key: Key)
      requires Valid()
      modifies this`store
      ensures Valid()
      ensures View() == old(View()).(store := Remove(old(View()).store, key))
    {
      RemoveValid(store, key);
      store := Remove(store, key);
      EntriesAfterRemove(key);
    }

    /** The lock-held part of `set`. */
    method StoreValue(key: Key, value: Value, source: string, ttl: Option<real>, now: real)
      returns (entry: StateEntry, oldValue: Value)
      requires Valid()
      modifies this`store, store.data.Values
      ensures Valid() && key in store.data && entry == store.data[key]
      ensures oldValue == OldValue(old(View()).store, key)
      ensures entry.View() == SetEntry(old(View()).store, key, value, source, ttl, now)
      ensures Dict(store.keys, Entries()) == Put(old(View()).store, key, entry.View())
    {
      oldValue := Null;
      if key in store.data {
        entry := store.data[key];
        oldValue := entry.value;
        entry.Rewrite(value, source, now);
        if ttl.Some? {
          entry.ttl := ttl;
        }
      } else {
        entry := new StateEntry(key, value, now, ttl, source);
        store := Put(store, key, entry);
      }
      EntriesAfterChange(entry);
    }

    method Set(key: Key, value: Value, source: string, ttl: Option<real>, now: real) returns (entry: StateEntry)
      requires Valid()
      modifies this, store.data.Values
      ensures Valid()
      ensures View() == SharedStateModel.Set(old(View()), key, value, source, ttl, now)
      ensures key in store.data && entry == store.data[key]
    {
      var oldValue;
      entry, oldValue := StoreValue(key, value, source, ttl, now);
      Log(Change(SET, key, value, oldValue, entry.version, source));
    }

    method Get(key: Key, now: real) returns (value: Value)
      requires Valid()
      modifies this
      ensures Valid() && View() == Touch(old(View()), key, now)
      ensures value == match Lookup(old(View()).store, key, now) case Some(e) => e.value case None => Null
    {
      var entry := GetEntry(key, now);
      match entry
      case None => return Null;
      case Some(e) => return e.value;
    }

    method GetEntry(key: Key, now: real) returns (entry: Option<StateEntry>)
      requires Valid()
      modifies this
      ensures Valid() && View() == Touch(old(View()), key, now)
      ensures entry.Some? == Lookup(old(View()).store, key, now).Some?
      ensures entry.Some? ==>
        && store == old(store) && key in store.data && entry.value == store.data[key]
        && entry.value.View() == Lookup(old(View()).store, key, now).value
    {
      if key !in store.data {
        return None;
      }
      var e := store.data[key];
      var expired := IsExpired(e, now);
      if expired {
        DeleteUnlocked(key);
        return None;
      }
      return Some(e);
    }

    method Exists(key: Key, now: real) returns (found: bool)
      requires Valid()
      modifies this
      ensures Valid() && View() == Touch(old(View()), key, now)
      ensures found == Lookup(old(View()).store, key, now).Some?
    {
      var entry := GetEntry(key, now);
      return entry.Some?;
    }

    method Delete(key: Key, source: string) returns (found: bool)
      requires Valid()
      modifies this
      ensures Valid() && View() == SharedStateModel.Delete(old(View()), key, source)
      ensures found == Deletes(old(View()), key)
    {
      if key !in store.data {
        return false;
      }
      var oldValue, version := store.data[key].value, store.data[key].version;
      DeleteUnlocked(key);
      Log(Change(DELETE, key, Null, oldValue, version, source));
      return true;
    }

    /** The comprehension that collects the expired keys. */
    method CollectExpired(now: real) returns (expired: seq<Key>)
      requires Valid()
      ensures expired == ExpiredKeys(View().store, now)
    {
      ghost var s := View().store;
      expired := [];
      for i := 0 to |store.keys|
        invariant expired == Filter(store.keys[..i], k => k in s.data && Expired(s.data[k], now))
      {
        FilterStep(store.keys, i, k => k in s.data && Expired(s.data[k], now));
        var gone := IsExpired(store.data[store.keys[i]], now);
        if gone {
          expired := expired + [store.keys[i]];
        }
      }
      assert store.keys[..|store.keys|] == store.keys;
    }

    method PopAll(keys: seq<Key>)
      requires Valid()
      modifies this`store
      ensures Valid() && store == Keep(old(store), k => k !in keys)
    {
      ghost var before := store;
      KeepAll(before, k => k !in keys[..0]);
      for i := 0 to |keys|
        invariant store == Keep(before, k => k !in keys[..i])
      {
        KeepThenRemove(before, k => k !in keys[..i], keys[i], k => k !in keys[..i + 1]);
        store := Remove(store, keys[i]);
      }
      assert keys[..|keys|] == keys;
      KeepValid(before, k => k !in keys);
    }

    method PopExpired(expired: seq<Key>, ghost now: real)
      requires Valid() && expired == ExpiredKeys(View().store, now)
      modifies this`store
      ensures Valid() && Dict(store.keys, Entries()) == SweepStore(old(View()).store, now)
    {
      PopAll(expired);
      EntriesAfterKeep(k => k !in expired);
      KeepIsSweep(old(View()).store, now, expired);
    }

    method SweepExpiredUnlocked(now: real)
      requires Valid()
      modifies this`store
      ensures Valid() && View() == Sweep(old(View()), now)
    {
      var expired := CollectExpired(now);
      PopExpired(expired, now);
    }

    method Keys(now: real) returns (keys: seq<Key>)
      requires Valid()
      modifies this
      ensures Valid() && View() == Sweep(old(View()), now)
      ensures Distinct(keys) && forall k :: k in keys <==> k in Live(old(View()).store, now)
    {
      SweepExpiredUnlocked(now);
      keys := store.keys;
      SweepIsLive(old(View()).store, now);
      assert Entries() == Live(old(View()).store, now);
    }

    method Items(now: real) returns (items: map<Key, Value>)
      requires Valid()
      modifies this
      ensures Valid() && View() == Sweep(old(View()), now)
      ensures items == Values(Live(old(View()).store, now))
    {
      SweepExpiredUnlocked(now);
      SweepIsLive(old(View()).store, now);
      items := Values(Entries());
    }

    method Clear() returns (count: nat)
      requires Valid()
      modifies this
      ensures Valid() && View() == SharedStateModel.Clear(old(View()))
      ensures count == |old(store.keys)|
    {
      count := |store.keys|;
      store := EmptyDict();
    }

    method AtomicUpdate(key: Key, f: Value -> Value, source: string, now: real) returns (value: Value)
      requires Valid()
      modifies this, store.data.Values
      ensures Valid() && View() == SharedStateModel.AtomicUpdate(old(View()), key, f, source, now)
      ensures value == match Lookup(old(View()).store, key, now) case Some(e) => f(e.value) case None => Null
    {
      var found := GetEntry(key, now);
      if found.None? {
        return Null;
      }
      var entry := found.value;
      value := f(entry.value);
      WriteEntry(entry, value, source, now);
    }

    method CompareAndSet(key: Key, expected: Value, value: Value, source: string, now: real) returns (ok: bool)
      requires Valid()
      modifies this, store.data.Values
      ensures Valid() && View() == SharedStateModel.CompareAndSet(old(View()), key, expected, value, source, now)
      ensures ok == CasSucceeds(old(View()), key, expected, now)
    {
      var found := GetEntry(key, now);
      if found.None? {
        return false;
      }
      if found.value.value != expected {
        return false;
      }
      WriteEntry(found.value, value, source, now);
      return true;
    }

    /** The part that `atomic_update` and `compare_and_set` have in common. */
    method WriteEntry(entry: StateEntry, value: Value, source: string, now: real)
      requires Valid() && entry.key in store.data && store.data[entry.key] == entry
      modifies this`changeLog, this`events, entry
      ensures Valid() && View() == Write(old(View()), entry.key, value, source, now)
    {
      var oldValue := entry.value;
      entry.Rewrite(value, source, now);
      EntriesAfterChange(entry);
      Log(Change(SET, entry.key, value, oldValue, entry.version, source));
    }

    /** The lock-held part of the clean-up. */
    method TakeExpired(now: real) returns (expired: seq<Key>, entries: map<Key, Entry>)
      requires Valid()
      modifies this`store
      ensures Valid() && Dict(store.keys, Entries()) == SweepStore(old(View()).store, now)
      ensures expired == ExpiredKeys(old(View()).store, now) && entries == old(Entries())
      ensures forall k | k in expired :: k in entries
    {
      expired := CollectExpired(now);
      entries := Entries();
      ExpiredAreStored(View().store, now);
      PopExpired(expired, now);
    }

    method CleanupExpired(now: real)
      requires Valid()
      modifies this`store, this`changeLog, this`events
      ensures Valid() && View() == Cleanup(old(View()), now)
    {
      ghost var before := View();
      var expired, entries := TakeExpired(now);
      LogExpired(before.store, entries, expired);
      assert View() == State(SweepStore(before.store, now), before.log + ExpiryEvents(before.store, expired));
    }

    method LogExpired(ghost before: Store, entries: map<Key, Entry>, expired: seq<Key>)
      requires changeLog == LastN(events, LOG_LIMIT)
      requires entries == before.data && forall k | k in expired :: k in entries
      modifies this`changeLog, this`events
      ensures changeLog == LastN(events, LOG_LIMIT)
      ensures events == old(events) + ExpiryEvents(before, expired)
    {
      for i := 0 to |expired|
        invariant changeLog == LastN(events, LOG_LIMIT)
        invariant events == old(events) + ExpiryEvents(before, expired[..i])
      {
        var k := expired[i];
        assert expired[..i + 1][..i] == expired[..i];
        Log(Change(EXPIRED, k, Null, entries[k].value, entries[k].version, "ttl_cleanup"));
      }
      assert expired[..|expired|] == expired;
    }

    /** The most recent events, from the last thousand. */
    method GetChangeHistory(limit: int) returns (history: seq<Change>)
      requires Valid()
      ensures history == SliceFromEnd(LastN(events, LOG_LIMIT), limit)
      ensures 0 < limit <= LOG_LIMIT ==> history == LastN(events, limit)
    {
      history := SliceFromEnd(changeLog, limit);
    }
  }

  lemma KeepIsSweep(store: Store, now: real, expired: seq<Key>)
    requires store.Valid() && expired == ExpiredKeys(store, now)
    ensures Keep(store, k => k !in expired) == SweepStore(store, now)
  {
    FilterMembers(store.keys, k => k in store.data && Expired(store.data[k], now));
    FilterAgree(store.keys, k => k !in expired, k => !(k in store.data && Expired(store.data[k], now)));
  }

  lemma ExpiredAreStored(store: Store, now: real)
    ensures forall k | k in ExpiredKeys(store, now) :: k in store.data
  {
    FilterMembers(store.keys, k => k in store.data && Expired(store.data[k], now));
  }
}
