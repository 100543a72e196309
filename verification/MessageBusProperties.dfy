/** Nothing published is lost or reordered, and every subscription gets exactly its messages. */
module MessageBusProperties {
  import opened Collections
  import opened MessageBusModel
  import opened Topics

  // --------------------------------------------------------------- invariant

  function OfPattern(p: string): Subscription -> bool {
    (s: Subscription) => s.pattern == p
  }

  /** No two subscriptions share a handle, and all handles were given out. */
  ghost predicate HandlesOk(flat: seq<Subscription>, next: nat) {
    && (forall i, j :: 0 <= i < j < |flat| ==> flat[i].handle != flat[j].handle)
    && (forall i :: 0 <= i < |flat| ==> flat[i].handle < next)
  }

  /** The table is the flat list grouped by pattern: each pattern's list is its subscriptions in
      the order in which they were made, and no pattern is there without one. */
  ghost predicate Grouped(t: Table, flat: seq<Subscription>) {
    && t.Valid()
    && (forall p | p in t.data :: t.data[p] == Filter(flat, OfPattern(p)) && t.data[p] != [])
    && (forall i :: 0 <= i < |flat| ==> flat[i].pattern in t.data)
  }

  ghost predicate Inv(b: Bus) {
    && b.published == b.dispatched + b.queue
    && HandlesOk(b.flat, b.nextHandle)
    && Grouped(b.table, b.flat)
    && (forall i :: 0 <= i < |b.delivered| ==> b.delivered[i].handle < b.nextHandle)
  }

  lemma ListOfIsFilter(t: Table, flat: seq<Subscription>, p: string)
    requires Grouped(t, flat)
    ensures ListOf(t, p) == Filter(flat, OfPattern(p))
  {
    if p !in t.data {
      FilterMembers(flat, OfPattern(p));
      FilterNone(flat, OfPattern(p));
    }
  }

  lemma AddKeepsGrouped(t: Table, flat: seq<Subscription>, s: Subscription)
    requires Grouped(t, flat)
    ensures Grouped(AddTo(t, s), flat + [s])
  {
    var u, all := AddTo(t, s), flat + [s];
    forall p | p in u.data ensures u.data[p] == Filter(all, OfPattern(p)) && u.data[p] != [] {
      ListOfIsFilter(t, flat, p);
      FilterConcat(flat, [s], OfPattern(p));
      OnePattern(s, p);
    }
    forall i | 0 <= i < |all| ensures all[i].pattern in u.data {
      assert i < |flat| ==> all[i] == flat[i];
    }
  }

  lemma OnePattern(s: Subscription, p: string)
    ensures Filter([s], OfPattern(p)) == if s.pattern == p then [s] else []
  {
    assert [s][1..] == [];
  }

  lemma OthersOfPattern(flat: seq<Subscription>, h: nat, p: string)
    ensures Filter(Others(flat, h), OfPattern(p)) == Others(Filter(flat, OfPattern(p)), h)
  {
    FilterFilter(flat, OtherThan(h), OfPattern(p));
    FilterFilter(flat, OfPattern(p), OtherThan(h));
    FilterAgree(flat, Both(OtherThan(h), OfPattern(p)), Both(OfPattern(p), OtherThan(h)));
  }

  /** A subscription of another pattern is not affected. */
  lemma OthersElsewhere(flat: seq<Subscription>, s: Subscription, p: string)
    requires p != s.pattern && forall x | x in flat && x.handle == s.handle :: x == s
    ensures Filter(Others(flat, s.handle), OfPattern(p)) == Filter(flat, OfPattern(p))
  {
    OthersOfPattern(flat, s.handle, p);
    FilterMembers(flat, OfPattern(p));
    FilterAll(Filter(flat, OfPattern(p)), OtherThan(s.handle));
  }

  lemma RemoveKeepsGrouped(t: Table, flat: seq<Subscription>, s: Subscription)
    requires Grouped(t, flat) && forall x | x in flat && x.handle == s.handle :: x == s
    ensures Grouped(RemoveFrom(t, s), Others(flat, s.handle))
  {
    var u, left := RemoveFrom(t, s), Others(flat, s.handle);
    ListOfIsFilter(t, flat, s.pattern);
    OthersOfPattern(flat, s.handle, s.pattern);
    RemoveValid(t, s.pattern);
    forall p | p in u.data ensures u.data[p] == Filter(left, OfPattern(p)) && u.data[p] != [] {
      if p != s.pattern {
        OthersElsewhere(flat, s, p);
      }
    }
    FilterMembers(flat, OtherThan(s.handle));
    FilterMembers(left, OfPattern(s.pattern));
    forall i | 0 <= i < |left| ensures left[i].pattern in u.data {
      assert left[i] in left && left[i] in flat;
      if left[i].pattern == s.pattern {
        assert left[i] in Filter(left, OfPattern(s.pattern));
      }
    }
  }

  lemma {:induction false} OthersHandles(flat: seq<Subscription>, h: nat, next: nat)
    requires HandlesOk(flat, next)
    ensures HandlesOk(Others(flat, h), next)
    ensures forall x | x in Others(flat, h) :: x in flat && x.handle != h
  {
    FilterMembers(flat, OtherThan(h));
    if flat != [] {
      assert forall i :: 0 <= i < |flat[1..]| ==> flat[1..][i] == flat[i + 1];
      OthersHandles(flat[1..], h, next);
      var rest := Others(flat[1..], h);
      forall i | 0 <= i < |rest| ensures rest[i].handle != flat[0].handle {
        assert rest[i] in rest;
      }
    }
  }

  lemma {:induction false} DeliverHandles(subs: seq<Subscription>, m: Message)
    ensures forall d | d in Deliver(subs, m) :: exists s | s in subs :: d.handle == s.handle
  {
    if subs != [] {
      DeliverHandles(subs[..|subs| - 1], m);
      assert subs[|subs| - 1] in subs;
      assert forall s | s in subs[..|subs| - 1] :: s in subs;
    }
  }

  lemma {:induction false} AllMembers(keys: seq<string>, data: map<string, seq<Subscription>>, s: Subscription)
    requires s in AllOf(keys, data)
    ensures exists k | k in keys :: k in data && s in data[k]
  {
    var init, last := keys[..|keys| - 1], keys[|keys| - 1];
    if s in AllOf(init, data) {
      AllMembers(init, data, s);
    } else {
      assert last in keys;
    }
  }

  lemma DispatchHandles(b: Bus, m: Message)
    requires Grouped(b.table, b.flat) && HandlesOk(b.flat, b.nextHandle)
    ensures forall d | d in Deliver(All(b.table), m) :: d.handle < b.nextHandle
  {
    DeliverHandles(All(b.table), m);
    forall d | d in Deliver(All(b.table), m) ensures d.handle < b.nextHandle {
      var s :| s in All(b.table) && d.handle == s.handle;
      AllMembers(b.table.keys, b.table.data, s);
      var k :| k in b.table.keys && k in b.table.data && s in b.table.data[k];
      FilterMembers(b.flat, OfPattern(k));
      assert s in b.flat;
    }
  }

  lemma StepKeepsInv(b: Bus, e: Event)
    requires Inv(b) && Enabled(b, e)
    ensures Inv(Apply(b, e))
  {
    match e
    case SubscribeEvent(subscriber, pattern, filter) =>
      AddKeepsGrouped(b.table, b.flat, Subscription(b.nextHandle, subscriber, pattern, filter));
    case UnsubscribeEvent(s) =>
      RemoveKeepsGrouped(b.table, b.flat, s);
      OthersHandles(b.flat, s.handle, b.nextHandle);
    case PublishEvent(m) =>
    case DispatchEvent =>
      DispatchHandles(b, b.queue[0]);
      var ds := Deliver(All(b.table), b.queue[0]);
      assert forall i :: 0 <= i < |ds| ==> ds[i] in ds;
  }

  /** In every reachable state published is dispatched followed by queued, and the table is the
      list of current subscriptions, grouped. */
  lemma {:induction false} ReachableInv(es: seq<Event>)
    requires Legal(es)
    ensures Inv(After(es))
  {
    if es != [] {
      ReachableInv(es[..|es| - 1]);
      StepKeepsInv(After(es[..|es| - 1]), es[|es| - 1]);
    }
  }

  // ------------------------------------------------------- one dispatch, one subscription

  lemma {:induction false} ReceivedConcat(h: nat, a: seq<Delivery>, b: seq<Delivery>)
    ensures Received(h, a + b) == Received(h, a) + Received(h, b)
  {
    if b == [] {
      assert a + b == a;
    } else {
      var init := b[..|b| - 1];
      assert (a + b)[..|a + b| - 1] == a + init;
      ReceivedConcat(h, a, init);
    }
  }

  lemma {:induction false} DeliverConcat(a: seq<Subscription>, b: seq<Subscription>, m: Message)
    ensures Deliver(a + b, m) == Deliver(a, m) + Deliver(b, m)
  {
    if b == [] {
      assert a + b == a;
    } else {
      var init := b[..|b| - 1];
      assert (a + b)[..|a + b| - 1] == a + init;
      DeliverConcat(a, init, m);
    }
  }

  /** What handle `h` receives when `m` is offered to `subs`. */
  function Share(h: nat, subs: seq<Subscription>, m: Message): seq<Message> {
    Received(h, Deliver(subs, m))
  }

  lemma ShareConcat(h: nat, a: seq<Subscription>, b: seq<Subscription>, m: Message)
    ensures Share(h, a + b, m) == Share(h, a, m) + Share(h, b, m)
  {
    DeliverConcat(a, b, m);
    ReceivedConcat(h, Deliver(a, m), Deliver(b, m));
  }

  lemma DeliverOne(subs: seq<Subscription>, m: Message)
    requires |subs| == 1
    ensures Deliver(subs, m) == if Wants(subs[0], m) then [Delivery(subs[0].handle, m)] else []
  {
    assert subs[..|subs| - 1] == [];
  }

  lemma ReceivedOne(h: nat, ds: seq<Delivery>)
    requires |ds| == 1
    ensures Received(h, ds) == if ds[0].handle == h then [ds[0].message] else []
  {
    assert ds[..|ds| - 1] == [];
  }

  lemma ShareOne(h: nat, s: Subscription, m: Message)
    ensures Share(h, [s], m) == if s.handle == h && Wants(s, m) then [m] else []
  {
    DeliverOne([s], m);
    if Wants(s, m) {
      ReceivedOne(h, Deliver([s], m));
    }
  }

  lemma {:induction false} ShareOfOthers(h: nat, subs: seq<Subscription>, m: Message)
    requires forall s | s in subs :: s.handle != h
    ensures Share(h, subs, m) == []
  {
    if subs != [] {
      var init, last := subs[..|subs| - 1], subs[|subs| - 1];
      assert subs == init + [last];
      ShareOfOthers(h, init, m);
      ShareConcat(h, init, [last], m);
      ShareOne(h, last, m);
    }
  }

  /** Only the list of its own pattern matters to a subscription. */
  lemma {:induction false} ShareOfPattern(h: nat, flat: seq<Subscription>, p: string, k: string, m: Message)
    requires forall s | s in flat && s.handle == h :: s.pattern == p
    ensures Share(h, Filter(flat, OfPattern(k)), m) == if k == p then Share(h, flat, m) else []
  {
    if flat != [] {
      var head, tail := flat[0], flat[1..];
      assert forall s | s in tail :: s in flat;
      ShareOfPattern(h, tail, p, k, m);
      assert flat == [head] + tail;
      ShareConcat(h, [head], tail, m);
      ShareConcat(h, [head], Filter(tail, OfPattern(k)), m);
      ShareOne(h, head, m);
    }
  }

  lemma DistinctInit(keys: seq<string>)
    requires Distinct(keys) && keys != []
    ensures var init, last := keys[..|keys| - 1], keys[|keys| - 1];
      Distinct(init) && last !in init && last in keys && forall k :: k in keys <==> k in init || k == last
  {
    assert keys == keys[..|keys| - 1] + [keys[|keys| - 1]];
  }

  lemma {:induction false} ShareOfTable(h: nat, keys: seq<string>, data: map<string, seq<Subscription>>, flat: seq<Subscription>, p: string, m: Message)
    requires Distinct(keys) && forall k | k in keys :: k in data && data[k] == Filter(flat, OfPattern(k))
    requires forall s | s in flat && s.handle == h :: s.pattern == p
    ensures Share(h, AllOf(keys, data), m) == if p in keys then Share(h, flat, m) else []
  {
    if keys != [] {
      var init, last := keys[..|keys| - 1], keys[|keys| - 1];
      DistinctInit(keys);
      ShareOfTable(h, init, data, flat, p, m);
      ShareConcat(h, AllOf(init, data), data[last], m);
      ShareOfPattern(h, flat, p, last, m);
    }
  }

  lemma {:induction false} ShareOfFlat(s: Subscription, flat: seq<Subscription>, next: nat, m: Message)
    requires HandlesOk(flat, next) && s in flat
    ensures Share(s.handle, flat, m) == if Wants(s, m) then [m] else []
  {
    var init, last := flat[..|flat| - 1], flat[|flat| - 1];
    InitLast(flat);
    ShareConcat(s.handle, init, [last], m);
    ShareOne(s.handle, last, m);
    if s == last {
      LastIsAlone(flat, next);
      ShareOfOthers(s.handle, init, m);
    } else {
      ShareOfFlat(s, init, next, m);
      var i :| 0 <= i < |init| && init[i] == s;
      assert flat[i] == s;
    }
  }

  lemma LastIsAlone(flat: seq<Subscription>, next: nat)
    requires HandlesOk(flat, next) && flat != []
    ensures forall x | x in flat[..|flat| - 1] :: x.handle != flat[|flat| - 1].handle
  {
  }

  /** Dispatching through the grouped table gives every handle what going through the flat list of
      subscriptions would give it. */
  lemma GroupedLikeFlat(b: Bus, h: nat, m: Message)
    requires Inv(b)
    ensures Share(h, All(b.table), m) == Share(h, b.flat, m)
  {
    if s :| s in b.flat && s.handle == h {
      forall x | x in b.flat && x.handle == h ensures x.pattern == s.pattern {
        var i :| 0 <= i < |b.flat| && b.flat[i] == s;
        var j :| 0 <= j < |b.flat| && b.flat[j] == x;
      }
      ShareOfTable(h, b.table.keys, b.table.data, b.flat, s.pattern, m);
    } else {
      ShareOfOthers(h, b.flat, m);
      ShareOfTable(h, b.table.keys, b.table.data, b.flat, "", m);
    }
  }

  // ------------------------------------------------------------ whole runs

  /** The messages a subscription asks for. */
  function Wanted(s: Subscription): Message -> bool {
    m => Wants(s, m)
  }

  predicate NotUnsubscribed(fs: seq<Event>, h: nat) {
    forall i | 0 <= i < |fs| :: !(fs[i].UnsubscribeEvent? && fs[i].sub.handle == h)
  }

  lemma StepKeepsSubscription(b: Bus, e: Event, s: Subscription)
    requires s in b.flat && !(e.UnsubscribeEvent? && e.sub.handle == s.handle)
    ensures s in Apply(b, e).flat
  {
    if e.UnsubscribeEvent? {
      FilterMembers(b.flat, OtherThan(e.sub.handle));
    }
  }

  lemma StepDelivers(b: Bus, e: Event, s: Subscription)
    requires Inv(b) && Enabled(b, e) && s in b.flat
    ensures Received(s.handle, Apply(b, e).delivered)
         == Received(s.handle, b.delivered)
            + if e.DispatchEvent? && Wants(s, b.queue[0]) then [b.queue[0]] else []
  {
    if e.DispatchEvent? {
      var m := b.queue[0];
      ReceivedConcat(s.handle, b.delivered, Deliver(All(b.table), m));
      GroupedLikeFlat(b, s.handle, m);
      ShareOfFlat(s, b.flat, b.nextHandle, m);
    }
  }

  lemma LegalSnoc(es: seq<Event>, e: Event)
    requires Legal(es + [e])
    ensures Legal(es) && Enabled(After(es), e) && After(es + [e]) == Apply(After(es), e)
  {
    assert (es + [e])[..|es|] == es;
  }

  /** The last event of a run that goes on from another. */
  lemma LastEventOf(es: seq<Event>, fs: seq<Event>) returns (init: seq<Event>, e: Event)
    requires Legal(es + fs) && fs != []
    ensures fs == init + [e]
    ensures Legal(es + init) && Enabled(After(es + init), e)
    ensures After(es + fs) == Apply(After(es + init), e)
  {
    init, e := fs[..|fs| - 1], fs[|fs| - 1];
    InitLast(fs);
    Assoc(es, init, [e]);
    LegalSnoc(es + init, e);
  }

  lemma {:induction false} DispatchedGrows(es: seq<Event>, fs: seq<Event>)
    requires Legal(es + fs)
    ensures After(es).dispatched <= After(es + fs).dispatched && Legal(es)
    decreases |fs|
  {
    if fs == [] {
      assert es + fs == es;
    } else {
      var init, e := LastEventOf(es, fs);
      DispatchedGrows(es, init);
    }
  }

  /** From any point at which it is subscribed, and for as long as it is, a subscription receives
      exactly the messages dispatched that match its pattern and pass its filter, once each and in
      the order of publication. */
  lemma {:induction false} SubscriptionGetsItsMessages(es: seq<Event>, fs: seq<Event>, s: Subscription)
    requires Legal(es + fs) && s in After(es).flat && NotUnsubscribed(fs, s.handle)
    ensures s in After(es + fs).flat
    ensures After(es).dispatched <= After(es + fs).dispatched
    ensures Received(s.handle, After(es + fs).delivered)
         == Received(s.handle, After(es).delivered)
            + Filter(After(es + fs).dispatched[|After(es).dispatched|..], Wanted(s))
    decreases |fs|
  {
    DispatchedGrows(es, fs);
    if fs == [] {
      assert es + fs == es;
    } else {
      var init, e := LastEventOf(es, fs);
      assert forall i :: 0 <= i < |init| ==> init[i] == fs[i];
      SubscriptionGetsItsMessages(es, init, s);
      ReachableInv(es + init);
      assert e == fs[|fs| - 1];
      StepKeepsSubscription(After(es + init), e, s);
      StepReceives(After(es), After(es + init), e, s);
    }
  }

  /** One more event: what is received grows as what is wanted of the dispatched. */
  lemma StepReceives(b0: Bus, b: Bus, e: Event, s: Subscription)
    requires Inv(b) && Enabled(b, e) && s in b.flat && b0.dispatched <= b.dispatched
    requires Received(s.handle, b.delivered)
          == Received(s.handle, b0.delivered) + Filter(b.dispatched[|b0.dispatched|..], Wanted(s))
    ensures b0.dispatched <= Apply(b, e).dispatched
    ensures Received(s.handle, Apply(b, e).delivered)
         == Received(s.handle, b0.delivered) + Filter(Apply(b, e).dispatched[|b0.dispatched|..], Wanted(s))
  {
    var more := if e.DispatchEvent? && Wants(s, b.queue[0]) then [b.queue[0]] else [];
    StepDelivers(b, e, s);
    DispatchedSnoc(b0.dispatched, b, e, s);
    Assoc(Received(s.handle, b0.delivered), Filter(b.dispatched[|b0.dispatched|..], Wanted(s)), more);
  }

  lemma DispatchedSnoc(earlier: seq<Message>, b: Bus, e: Event, s: Subscription)
    requires Enabled(b, e) && earlier <= b.dispatched
    ensures earlier <= Apply(b, e).dispatched
    ensures Filter(Apply(b, e).dispatched[|earlier|..], Wanted(s))
         == Filter(b.dispatched[|earlier|..], Wanted(s))
            + if e.DispatchEvent? && Wants(s, b.queue[0]) then [b.queue[0]] else []
  {
    if e.DispatchEvent? {
      var m := b.queue[0];
      assert (b.dispatched + [m])[|earlier|..] == b.dispatched[|earlier|..] + [m];
      FilterConcat(b.dispatched[|earlier|..], [m], Wanted(s));
    }
  }

  lemma {:induction false} NothingReceived(h: nat, ds: seq<Delivery>)
    requires forall i :: 0 <= i < |ds| ==> ds[i].handle != h
    ensures Received(h, ds) == []
  {
    if ds != [] {
      NothingReceived(h, ds[..|ds| - 1]);
    }
  }

  /** A new subscription starts with nothing: it gets no message dispatched before it was made. */
  lemma NewSubscriptionStartsEmpty(es: seq<Event>, subscriber: string, pattern: string, filter: Option<Message -> bool>)
    requires Legal(es)
    ensures var b := After(es + [SubscribeEvent(subscriber, pattern, filter)]);
      var s := Subscription(After(es).nextHandle, subscriber, pattern, filter);
      s in b.flat && Received(s.handle, b.delivered) == []
  {
    ReachableInv(es);
    assert (es + [SubscribeEvent(subscriber, pattern, filter)])[..|es|] == es;
    NothingReceived(After(es).nextHandle, After(es).delivered);
  }

  /** The handle was given out, and is not subscribed. */
  ghost predicate Absent(b: Bus, h: nat) {
    h < b.nextHandle && forall s | s in b.flat :: s.handle != h
  }

  lemma StepKeepsAbsent(b: Bus, e: Event, h: nat)
    requires Absent(b, h)
    ensures Absent(Apply(b, e), h)
  {
    if e.UnsubscribeEvent? {
      FilterMembers(b.flat, OtherThan(e.sub.handle));
    }
  }

  lemma StepDeliversNothing(b: Bus, e: Event, h: nat)
    requires Inv(b) && Enabled(b, e) && Absent(b, h)
    ensures Received(h, Apply(b, e).delivered) == Received(h, b.delivered)
  {
    if e.DispatchEvent? {
      ReceivedConcat(h, b.delivered, Deliver(All(b.table), b.queue[0]));
      GroupedLikeFlat(b, h, b.queue[0]);
      ShareOfOthers(h, b.flat, b.queue[0]);
    }
  }

  /** A handle that is not subscribed receives nothing more. */
  lemma {:induction false} UnsubscribedGetsNothing(es: seq<Event>, fs: seq<Event>, h: nat)
    requires Legal(es + fs) && Absent(After(es), h)
    ensures Absent(After(es + fs), h)
    ensures Received(h, After(es + fs).delivered) == Received(h, After(es).delivered)
    decreases |fs|
  {
    if fs == [] {
      assert es + fs == es;
    } else {
      var init, e := LastEventOf(es, fs);
      UnsubscribedGetsNothing(es, init, h);
      ReachableInv(es + init);
      StepKeepsAbsent(After(es + init), e, h);
      StepDeliversNothing(After(es + init), e, h);
    }
  }

  // --------------------------------------------- what the patterns mean for runs

  predicate Passes(s: Subscription, m: Message) {
    s.filter.None? || s.filter.value(m)
  }

  /** Subscribed at `es`, and not unsubscribed in what follows. */
  ghost predicate StaysSubscribed(es: seq<Event>, fs: seq<Event>, s: Subscription) {
    Legal(es + fs) && s in After(es).flat && NotUnsubscribed(fs, s.handle)
  }

  /** In the course of `fs` the subscription receives the messages dispatched that satisfy `p`. */
  ghost predicate ReceivesExactly(es: seq<Event>, fs: seq<Event>, s: Subscription, p: Message -> bool) {
    && After(es).dispatched <= After(es + fs).dispatched
    && Received(s.handle, After(es + fs).delivered)
       == Received(s.handle, After(es).delivered) + Filter(After(es + fs).dispatched[|After(es).dispatched|..], p)
  }

  lemma ReceivesWhatMatches(es: seq<Event>, fs: seq<Event>, s: Subscription, p: Message -> bool)
    requires StaysSubscribed(es, fs, s)
    requires forall m :: p(m) <==> TopicMatches(m.topic, s.pattern) && Passes(s, m)
    ensures ReceivesExactly(es, fs, s, p)
  {
    SubscriptionGetsItsMessages(es, fs, s);
    FilterAgree(After(es + fs).dispatched[|After(es).dispatched|..], p, Wanted(s));
  }

  function TopicIs(topic: string, filter: Option<Message -> bool>): Message -> bool {
    (m: Message) => m.topic == topic && (filter.None? || filter.value(m))
  }

  function TopicBegins(prefix: string, filter: Option<Message -> bool>): Message -> bool {
    (m: Message) => prefix <= m.topic && (filter.None? || filter.value(m))
  }

  function Anything(filter: Option<Message -> bool>): Message -> bool {
    (m: Message) => filter.None? || filter.value(m)
  }

  /** Topics with exactly one segment more than `prefix`. */
  ghost predicate OneSegmentMore(topic: string, prefix: string) {
    exists x :: Segments(topic) == Segments(prefix) + [x]
  }

  /** Without a wildcard: the messages of that very topic that pass the filter. */
  lemma PlainSubscription(es: seq<Event>, fs: seq<Event>, s: Subscription)
    requires StaysSubscribed(es, fs, s) && !HasWildcard(s.pattern)
    ensures ReceivesExactly(es, fs, s, TopicIs(s.pattern, s.filter))
  {
    var p := TopicIs(s.pattern, s.filter);
    forall m: Message ensures p(m) <==> TopicMatches(m.topic, s.pattern) && Passes(s, m) {
      PlainPattern(m.topic, s.pattern);
    }
    ReceivesWhatMatches(es, fs, s, p);
  }

  /** With "*": all messages that pass the filter. */
  lemma StarSubscription(es: seq<Event>, fs: seq<Event>, s: Subscription)
    requires StaysSubscribed(es, fs, s) && s.pattern in {"*", "**"}
    ensures ReceivesExactly(es, fs, s, Anything(s.filter))
  {
    var p := Anything(s.filter);
    forall m: Message ensures p(m) <==> TopicMatches(m.topic, s.pattern) && Passes(s, m) {
      StarsMatchAll(m.topic);
    }
    ReceivesWhatMatches(es, fs, s, p);
  }

  /** With `prefix.**`: the messages whose topic starts with the prefix. */
  lemma DoubleStarSubscription(es: seq<Event>, fs: seq<Event>, s: Subscription, prefix: string)
    requires StaysSubscribed(es, fs, s) && s.pattern == prefix + ".**"
    requires '*' !in prefix && (prefix == "" || prefix[|prefix| - 1] != '.')
    ensures ReceivesExactly(es, fs, s, TopicBegins(prefix, s.filter))
  {
    var p := TopicBegins(prefix, s.filter);
    forall m: Message ensures p(m) <==> TopicMatches(m.topic, s.pattern) && Passes(s, m) {
      DoubleStarPrefix(m.topic, prefix);
    }
    ReceivesWhatMatches(es, fs, s, p);
  }

  /** With `prefix.*`: each message received has one segment more, each that has is received. */
  lemma SingleStarSubscription(es: seq<Event>, fs: seq<Event>, s: Subscription, prefix: string, p: Message -> bool)
    requires StaysSubscribed(es, fs, s) && s.pattern == prefix + ".*" && !HasDoubleStar(s.pattern)
    requires forall m :: p(m) <==> OneSegmentMore(m.topic, prefix) && Passes(s, m)
    ensures ReceivesExactly(es, fs, s, p)
  {
    forall m: Message ensures p(m) <==> TopicMatches(m.topic, s.pattern) && Passes(s, m) {
      SingleWildcard(m.topic, prefix);
    }
    ReceivesWhatMatches(es, fs, s, p);
  }

  // ----------------------------------------------------- what the events leave

  /** The messages handed in, in order. */
  function Inbox(es: seq<Event>): seq<Message> {
    if es == [] then []
    else Inbox(es[..|es| - 1]) + if es[|es| - 1].PublishEvent? then [es[|es| - 1].message] else []
  }

  function Dispatches(es: seq<Event>): nat {
    if es == [] then 0 else Dispatches(es[..|es| - 1]) + if es[|es| - 1].DispatchEvent? then 1 else 0
  }

  /** `n` of the messages in the inbox have been dispatched, the others wait. */
  ghost predicate SplitsInbox(b: Bus, inbox: seq<Message>, n: nat) {
    n <= |inbox| && b.dispatched == inbox[..n] && b.queue == inbox[n..]
  }

  lemma DispatchMoves(b: Bus, inbox: seq<Message>, n: nat)
    requires SplitsInbox(b, inbox, n) && b.queue != []
    ensures SplitsInbox(Dispatch(b), inbox, n + 1)
  {
    assert inbox[..n + 1] == inbox[..n] + [inbox[n]];
  }

  lemma PublishQueues(b: Bus, inbox: seq<Message>, n: nat, m: Message)
    requires SplitsInbox(b, inbox, n)
    ensures SplitsInbox(Publish(b, m), inbox + [m], n)
  {
    assert (inbox + [m])[n..] == inbox[n..] + [m];
  }

  /** After `n` dispatches the first `n` messages published have been dispatched and the others wait. */
  lemma {:induction false} FirstInFirstOut(es: seq<Event>)
    requires Legal(es)
    ensures SplitsInbox(After(es), Inbox(es), Dispatches(es))
  {
    if es != [] {
      var before, e := es[..|es| - 1], es[|es| - 1];
      FirstInFirstOut(before);
      match e
      case PublishEvent(m) => PublishQueues(After(before), Inbox(before), Dispatches(before), m);
      case DispatchEvent => DispatchMoves(After(before), Inbox(before), Dispatches(before));
      case _ =>
    }
  }

  /** Unsubscribing takes that subscription away and no other. */
  lemma UnsubscribeTakesOne(es: seq<Event>, s: Subscription)
    requires Legal(es + [UnsubscribeEvent(s)])
    ensures var before, after := After(es).flat, After(es + [UnsubscribeEvent(s)]).flat;
      forall x :: x in after <==> x in before && x.handle != s.handle
  {
    assert (es + [UnsubscribeEvent(s)])[..|es|] == es;
    FilterMembers(After(es).flat, OtherThan(s.handle));
  }
}
