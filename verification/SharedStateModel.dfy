/** The versioned store as values: what each lock-held section does, with the time at which
    it runs as a parameter, and runs of such sections. */
module SharedStateModel {
  import opened Collections

  type Key = string

  /** Stored values. `Null` is Python's `None`, which reads also give for a missing key. */
  datatype Value = Null | Number(n: int) | Text(s: string) | Items(xs: seq<Value>)

  datatype Entry = Entry(
    value: Value,
    version: int,
    createdAt: real,
    updatedAt: real,
    ttl: Option<real>,
    createdBy: string)

  datatype ChangeType = SET | DELETE | EXPIRED

  datatype Change = Change(kind: ChangeType, key: Key, value: Value, oldValue: Value, version: int, source: string)

  type Store = Dict<Key, Entry>

  /** The store, and every event ever logged (the program keeps the last 1000). */
  datatype State = State(store: Store, log: seq<Change>)

  const EMPTY: State := State(EmptyDict(), [])

  const LOG_LIMIT: nat := 1000

  // ---------------------------------------------------------------- live view

  predicate Expired(e: Entry, now: real) {
    e.ttl.Some? && now - e.updatedAt > e.ttl.value
  }

  /** The entry a reader at time `now` may see. */
  function Lookup(store: Store, key: Key, now: real): Option<Entry> {
    if key in store.data && !Expired(store.data[key], now) then Some(store.data[key]) else None
  }

  /** Everything a reader at time `now` may see. */
  function Live(store: Store, now: real): map<Key, Entry> {
    map k | k in store.data && !Expired(store.data[k], now) :: store.data[k]
  }

  function Values(entries: map<Key, Entry>): map<Key, Value> {
    map k | k in entries :: entries[k].value
  }

  // ------------------------------------------------------------------ sections

  function ExpiredKeys(store: Store, now: real): seq<Key> {
    Filter(store.keys, k => k in store.data && Expired(store.data[k], now))
  }

  function SweepStore(store: Store, now: real): Store {
    Keep(store, k => !(k in store.data && Expired(store.data[k], now)))
  }

  /** What a read does to the store: an expired entry in its way is dropped, silently. */
  function Touch(s: State, key: Key, now: real): State {
    if key in s.store.data && Expired(s.store.data[key], now) then s.(store := Remove(s.store, key)) else s
  }

  lemma SweepIsLive(store: Store, now: real)
    ensures SweepStore(store, now).data == Live(store, now)
  {
  }

  function Sweep(s: State, now: real): State {
    s.(store := SweepStore(s.store, now))
  }

  function Written(e: Entry, value: Value, source: string, now: real): Entry {
    e.(value := value, version := e.version + 1, updatedAt := now, createdBy := source)
  }

  function SetEntry(store: Store, key: Key, value: Value, source: string, ttl: Option<real>, now: real): Entry {
    if key in store.data then
      Written(store.data[key], value, source, now).(ttl := if ttl.Some? then ttl else store.data[key].ttl)
    else
      Entry(value, 1, now, now, ttl, source)
  }

  function OldValue(store: Store, key: Key): Value {
    if key in store.data then store.data[key].value else Null
  }

  /** `set`: note that it does not look whether the old entry has expired. */
  function Set(s: State, key: Key, value: Value, source: string, ttl: Option<real>, now: real): State {
    var e := SetEntry(s.store, key, value, source, ttl, now);
    State(Put(s.store, key, e),
          s.log + [Change(SET, key, value, OldValue(s.store, key), e.version, source)])
  }

  /** What `delete` returns. */
  predicate Deletes(s: State, key: Key) {
    key in s.store.data
  }

  /** `delete`: nor does this. */
  function Delete(s: State, key: Key, source: string): State {
    if Deletes(s, key) then
      State(Remove(s.store, key),
            s.log + [Change(DELETE, key, Null, s.store.data[key].value, s.store.data[key].version, source)])
    else
      s
  }

  function Clear(s: State): State {
    s.(store := EmptyDict())
  }

  function Write(s: State, key: Key, value: Value, source: string, now: real): State
    requires key in s.store.data
  {
    var e := s.store.data[key];
    State(Put(s.store, key, Written(e, value, source, now)),
          s.log + [Change(SET, key, value, e.value, e.version + 1, source)])
  }

  function AtomicUpdate(s: State, key: Key, f: Value -> Value, source: string, now: real): State {
    match Lookup(s.store, key, now)
    case None => Touch(s, key, now)
    case Some(e) => Write(s, key, f(e.value), source, now)
  }

  predicate CasSucceeds(s: State, key: Key, expected: Value, now: real) {
    Lookup(s.store, key, now).Some? && Lookup(s.store, key, now).value.value == expected
  }

  function CompareAndSet(s: State, key: Key, expected: Value, value: Value, source: string, now: real): State {
    if CasSucceeds(s, key, expected, now) then Write(s, key, value, source, now) else Touch(s, key, now)
  }

  function ExpiryEvents(store: Store, keys: seq<Key>): seq<Change> {
    if keys == [] then []
    else
      ExpiryEvents(store, keys[..|keys| - 1])
      + (var k := keys[|keys| - 1];
         if k in store.data then
           [Change(EXPIRED, k, Null, store.data[k].value, store.data[k].version, "ttl_cleanup")]
         else [])
  }

  /** `_cleanup_expired`: a sweep that logs what it drops, in store order. */
  function Cleanup(s: State, now: real): State {
    State(SweepStore(s.store, now), s.log + ExpiryEvents(s.store, ExpiredKeys(s.store, now)))
  }

  // ---------------------------------------------------------------------- runs

  /** The lock-held sections. A compare-and-set proposes `f(expected)`. */
  datatype Op =
    | SetOp(key: Key, value: Value, source: string, ttl: Option<real>)
    | DeleteOp(key: Key, source: string)
    | UpdateOp(key: Key, f: Value -> Value, source: string)
    | CasOp(key: Key, expected: Value, f: Value -> Value, source: string)
    | ReadOp(key: Key)
    | SweepOp
    | CleanupOp
    | ClearOp

  datatype Step = Step(now: real, op: Op)

  function Do(s: State, step: Step): State {
    match step.op
    case SetOp(k, v, source, ttl) => Set(s, k, v, source, ttl, step.now)
    case DeleteOp(k, source) => Delete(s, k, source)
    case UpdateOp(k, f, source) => AtomicUpdate(s, k, f, source, step.now)
    case CasOp(k, expected, f, source) => CompareAndSet(s, k, expected, f(expected), source, step.now)
    case ReadOp(k) => Touch(s, k, step.now)
    case SweepOp => Sweep(s, step.now)
    case CleanupOp => Cleanup(s, step.now)
    case ClearOp => Clear(s)
  }

  /** Sections from any number of clients, in the order in which they get the lock. */
  function Run(s: State, steps: seq<Step>): State {
    if steps == [] then s else Do(Run(s, steps[..|steps| - 1]), steps[|steps| - 1])
  }

  /** The clock does not run backwards, starting from `t`. */
  ghost predicate ClockFrom(t: real, steps: seq<Step>) {
    && (forall i :: 0 <= i < |steps| ==> t <= steps[i].now)
    && (forall i, j :: 0 <= i < j < |steps| ==> steps[i].now <= steps[j].now)
  }
}
