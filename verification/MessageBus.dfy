/** The bus as the program keeps it. A dispatch is one turn of the loop; the callbacks it makes
    are its result, in order. */
module MessageBus {
  import opened Collections
  import opened Topics
  import M = MessageBusModel
  import P = MessageBusProperties

  class MessageBus {
    var subscribers: M.Table
    var queue: seq<M.Message>
    var history: seq<M.Message>
    var nextHandle: nat
    ghost var published: seq<M.Message>
    ghost var dispatched: seq<M.Message>
    ghost var delivered: seq<M.Delivery>
    ghost var flat: seq<M.Subscription>

    ghost function View(): M.Bus
      reads this
    {
      M.Bus(subscribers, queue, nextHandle, published, dispatched, delivered, flat)
    }

    ghost predicate Valid()
      reads this
    {
      P.Inv(View()) && history == LastN(dispatched, M.HISTORY_LIMIT)
    }

    constructor ()
      ensures Valid() && View() == M.EMPTY
    {
      subscribers, queue, history, nextHandle := EmptyDict(), [], [], 0;
      published, dispatched, delivered, flat := [], [], [], [];
    }

    method Subscribe(subscriber: string, pattern: string, filter: Option<M.Message -> bool>) returns (sub: M.Subscription)
      requires Valid()
      modifies this
      ensures Valid() && View() == M.Subscribe(old(View()), subscriber, pattern, filter)
      ensures sub == M.Subscription(old(nextHandle), subscriber, pattern, filter)
    {
      P.StepKeepsInv(View(), M.SubscribeEvent(subscriber, pattern, filter));
      sub := M.Subscription(nextHandle, subscriber, pattern, filter);
      AppendToPattern(sub);
      nextHandle := nextHandle + 1;
      flat := flat + [sub];
    }

    /** `setdefault(pattern, []).append(sub)`. */
    method AppendToPattern(sub: M.Subscription)
      modifies this`subscribers
      ensures subscribers == M.AddTo(old(subscribers), sub)
    {
      if sub.pattern !in subscribers.data {
        subscribers := Put(subscribers, sub.pattern, []);
      }
      subscribers := Put(subscribers, sub.pattern, subscribers.data[sub.pattern] + [sub]);
    }

    method Unsubscribe(sub: M.Subscription)
      requires Valid()
      requires forall x | x in flat && x.handle == sub.handle :: x == sub
      modifies this
      ensures Valid() && View() == M.Unsubscribe(old(View()), sub)
    {
      P.StepKeepsInv(View(), M.UnsubscribeEvent(sub));
      DropFromPattern(sub);
      flat := M.Others(flat, sub.handle);
    }

    method DropFromPattern(sub: M.Subscription)
      modifies this`subscribers
      ensures subscribers == M.RemoveFrom(old(subscribers), sub)
    {
      var rest := M.Others(M.ListOf(subscribers, sub.pattern), sub.handle);
      PutThenRemove(subscribers, sub.pattern, rest);
      subscribers := Put(subscribers, sub.pattern, rest);
      if subscribers.data[sub.pattern] == [] {
        subscribers := Remove(subscribers, sub.pattern);
      }
    }

    method Publish(message: M.Message)
      requires Valid()
      modifies this
      ensures Valid() && View() == M.Publish(old(View()), message)
    {
      P.StepKeepsInv(View(), M.PublishEvent(message));
      queue := queue + [message];
      published := published + [message];
    }

    method Dispatch() returns (called: seq<M.Delivery>)
      requires Valid() && queue != []
      modifies this
      ensures Valid() && View() == M.Dispatch(old(View()))
      ensures called == M.Deliver(M.All(subscribers), old(queue)[0])
      ensures history == LastN(dispatched, 1000)
    {
      P.StepKeepsInv(View(), M.DispatchEvent);
      var message := queue[0];
      queue := queue[1..];
      Record(message);
      called := FanOut(message);
      delivered := delivered + called;
    }

    /** `_history.append`, on a deque of bounded length. */
    method Record(message: M.Message)
      requires history == LastN(dispatched, M.HISTORY_LIMIT)
      modifies this`history, this`dispatched
      ensures dispatched == old(dispatched) + [message]
      ensures history == LastN(dispatched, M.HISTORY_LIMIT)
    {
      BoundedAppend(dispatched, message, M.HISTORY_LIMIT);
      history := LastN(history + [message], M.HISTORY_LIMIT);
      dispatched := dispatched + [message];
    }

    /** The nested loops over patterns and their subscriptions. */
    method FanOut(message: M.Message) returns (called: seq<M.Delivery>)
      requires P.Grouped(subscribers, flat)
      ensures called == M.Deliver(M.All(subscribers), message)
    {
      var patterns := subscribers.keys;
      called := [];
      for i := 0 to |patterns|
        invariant called == M.Deliver(M.AllOf(patterns[..i], subscribers.data), message)
      {
        var subs := subscribers.data[patterns[i]];
        SubsHavePattern(subscribers, flat, patterns[i]);
        var more := OfferTo(patterns[i], subs, message);
        P.DeliverConcat(M.AllOf(patterns[..i], subscribers.data), subs, message);
        called := called + more;
        assert patterns[..i + 1][..i] == patterns[..i];
      }
      assert patterns[..|patterns|] == patterns;
    }

    method OfferTo(pattern: string, subs: seq<M.Subscription>, message: M.Message) returns (called: seq<M.Delivery>)
      requires forall j :: 0 <= j < |subs| ==> subs[j].pattern == pattern
      ensures called == M.Deliver(subs, message)
    {
      called := [];
      for j := 0 to |subs|
        invariant called == M.Deliver(subs[..j], message)
      {
        assert subs[..j + 1][..j] == subs[..j];
        if TopicMatches(message.topic, pattern) {
          if subs[j].filter.None? || subs[j].filter.value(message) {
            called := called + [M.Delivery(subs[j].handle, message)];
          }
        }
      }
      assert subs[..|subs|] == subs;
    }

    /** The last `limit` of the last thousand messages dispatched, of one topic if given. */
    method GetHistory(topic: Option<string>, limit: int) returns (messages: seq<M.Message>)
      requires Valid()
      ensures var recent := LastN(dispatched, M.HISTORY_LIMIT);
        messages == SliceFromEnd(if topic.Some? then Filter(recent, M.HasTopic(topic.value)) else recent, limit)
    {
      var msgs := history;
      if topic.Some? {
        msgs := Filter(msgs, M.HasTopic(topic.value));
      }
      messages := SliceFromEnd(msgs, limit);
    }
  }

  lemma SubsHavePattern(t: M.Table, flat: seq<M.Subscription>, p: string)
    requires P.Grouped(t, flat) && p in t.data
    ensures forall j :: 0 <= j < |t.data[p]| ==> t.data[p][j].pattern == p
  {
    FilterMembers(flat, P.OfPattern(p));
    assert forall j :: 0 <= j < |t.data[p]| ==> t.data[p][j] in t.data[p];
  }
}
