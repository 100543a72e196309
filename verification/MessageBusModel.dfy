/** The bus as values: the table of subscriptions by pattern, the queue, and what was delivered. */
module MessageBusModel {
  import opened Collections
  import opened Topics

  datatype Message = Message(id: string, topic: string, sender: string, payload: string, priority: int)

  /** `handle` stands for the identity of the subscription object. */
  datatype Subscription = Subscription(
    handle: nat,
    subscriber: string,
    pattern: string,
    filter: Option<Message -> bool>)

  datatype Delivery = Delivery(handle: nat, message: Message)

  type Table = Dict<string, seq<Subscription>>

  const HISTORY_LIMIT: nat := 1000

  predicate Wants(s: Subscription, m: Message) {
    TopicMatches(m.topic, s.pattern) && (s.filter.None? || s.filter.value(m))
  }

  // ---------------------------------------------------------- subscriptions

  function ListOf(t: Table, pattern: string): seq<Subscription> {
    if pattern in t.data then t.data[pattern] else []
  }

  function AddTo(t: Table, s: Subscription): Table {
    Put(t, s.pattern, ListOf(t, s.pattern) + [s])
  }

  function OtherThan(handle: nat): Subscription -> bool {
    (s: Subscription) => s.handle != handle
  }

  function Others(subs: seq<Subscription>, handle: nat): seq<Subscription> {
    Filter(subs, OtherThan(handle))
  }

  /** Unsubscribing keeps the others of the pattern, and drops a pattern that has none left. */
  function RemoveFrom(t: Table, s: Subscription): Table {
    var rest := Others(ListOf(t, s.pattern), s.handle);
    if rest == [] then Remove(t, s.pattern) else Put(t, s.pattern, rest)
  }

  /** All subscriptions, pattern by pattern: the order in which a dispatch visits them. */
  function AllOf(keys: seq<string>, data: map<string, seq<Subscription>>): seq<Subscription> {
    if keys == [] then []
    else AllOf(keys[..|keys| - 1], data) + (if keys[|keys| - 1] in data then data[keys[|keys| - 1]] else [])
  }

  function All(t: Table): seq<Subscription> {
    AllOf(t.keys, t.data)
  }

  // ---------------------------------------------------------------- dispatch

  function Deliver(subs: seq<Subscription>, m: Message): seq<Delivery> {
    if subs == [] then []
    else
      Deliver(subs[..|subs| - 1], m)
      + if Wants(subs[|subs| - 1], m) then [Delivery(subs[|subs| - 1].handle, m)] else []
  }

  /** What one subscription received, in order. */
  function Received(handle: nat, ds: seq<Delivery>): seq<Message> {
    if ds == [] then []
    else
      Received(handle, ds[..|ds| - 1])
      + if ds[|ds| - 1].handle == handle then [ds[|ds| - 1].message] else []
  }

  function HasTopic(topic: string): Message -> bool {
    (m: Message) => m.topic == topic
  }

  // -------------------------------------------------------------------- state

  /** `published`, `dispatched` and `delivered` record the whole past; `flat` lists the current
      subscriptions one by one in the order in which they were made. */
  datatype Bus = Bus(
    table: Table,
    queue: seq<Message>,
    nextHandle: nat,
    published: seq<Message>,
    dispatched: seq<Message>,
    delivered: seq<Delivery>,
    flat: seq<Subscription>)

  const EMPTY: Bus := Bus(EmptyDict(), [], 0, [], [], [], [])

  function Subscribe(b: Bus, subscriber: string, pattern: string, filter: Option<Message -> bool>): Bus {
    var s := Subscription(b.nextHandle, subscriber, pattern, filter);
    b.(table := AddTo(b.table, s), nextHandle := b.nextHandle + 1, flat := b.flat + [s])
  }

  function Unsubscribe(b: Bus, s: Subscription): Bus {
    b.(table := RemoveFrom(b.table, s), flat := Others(b.flat, s.handle))
  }

  function Publish(b: Bus, m: Message): Bus {
    b.(queue := b.queue + [m], published := b.published + [m])
  }

  function Dispatch(b: Bus): Bus
    requires b.queue != []
  {
    var m := b.queue[0];
    b.(queue := b.queue[1..], dispatched := b.dispatched + [m], delivered := b.delivered + Deliver(All(b.table), m))
  }

  datatype Event =
    | SubscribeEvent(subscriber: string, pattern: string, filter: Option<Message -> bool>)
    | UnsubscribeEvent(sub: Subscription)
    | PublishEvent(message: Message)
    | DispatchEvent

  /** A dispatch waits for a message; handles are only used as they were given out. */
  ghost predicate Enabled(b: Bus, e: Event) {
    match e
    case DispatchEvent => b.queue != []
    case UnsubscribeEvent(s) => forall x | x in b.flat && x.handle == s.handle :: x == s
    case _ => true
  }

  function Apply(b: Bus, e: Event): Bus {
    match e
    case SubscribeEvent(subscriber, pattern, filter) => Subscribe(b, subscriber, pattern, filter)
    case UnsubscribeEvent(s) => Unsubscribe(b, s)
    case PublishEvent(m) => Publish(b, m)
    case DispatchEvent => if b.queue != [] then Dispatch(b) else b
  }

  function After(es: seq<Event>): Bus {
    if es == [] then EMPTY else Apply(After(es[..|es| - 1]), es[|es| - 1])
  }

  ghost predicate Legal(es: seq<Event>) {
    es == [] || (Legal(es[..|es| - 1]) && Enabled(After(es[..|es| - 1]), es[|es| - 1]))
  }
}
