/** The correlation, buffer and subscription managers over the store they share. Storage calls succeed, each call of
    `PublishMessage` is one step, and the tokens it reads are passed in. */
module MessageManager {
  import opened Logic
  import opened Messages
  import F = TokenFlow

  method IsIntermediateCatchEvent(tokens: seq<Held>, element: string) returns (found: bool)
    ensures found <==> exists i :: 0 <= i < |tokens| && WaitsAt(tokens[i], element)
  {
    for i := 0 to |tokens|
      invariant forall j :: 0 <= j < i ==> !WaitsAt(tokens[j], element)
    {
      if tokens[i].token.state == F.Waiting && tokens[i].token.element == element {
        return true;
      }
    }
    return false;
  }

  lemma {:induction false} FirstWaitingStays(tokens: seq<Held>, element: string, name: string, n: nat)
    requires n <= |tokens| && FirstWaiting(tokens[..n], element, name).Some?
    ensures FirstWaiting(tokens, element, name) == FirstWaiting(tokens[..n], element, name)
    decreases |tokens|
  {
    if n == |tokens| {
      assert tokens[..n] == tokens;
    } else {
      var init := tokens[..|tokens| - 1];
      assert init[..n] == tokens[..n];
      FirstWaitingStays(init, element, name, n);
    }
  }

  method FindWaitingToken(tokens: seq<Held>, element: string, name: string) returns (found: Option<Held>)
    ensures found == FirstWaiting(tokens, element, name)
  {
    for i := 0 to |tokens|
      invariant FirstWaiting(tokens[..i], element, name) == None
    {
      TakeOneMore(tokens, i + 1);
      if WaitsAt(tokens[i], element) && tokens[i].token.waitingFor == "message:" + name {
        FirstWaitingStays(tokens, element, name, i + 1);
        return Some(tokens[i]);
      }
    }
    assert tokens[..|tokens|] == tokens;
    return None;
  }

  /** A search that has found nothing yet finds the next entry, or goes past it. */
  lemma FirstMatchNext(subs: seq<Subscription>, m: Message, i: nat)
    requires i < |subs| && FirstMatch(subs[..i], m) == None
    ensures Matches(subs[i], m) ==> FirstMatch(subs, m) == Some(subs[i])
    ensures !Matches(subs[i], m) ==> FirstMatch(subs[..i + 1], m) == None
  {
    TakeOneMore(subs, i + 1);
    if Matches(subs[i], m) {
      FirstMatchStays(subs, m, i + 1);
    }
  }

  lemma {:induction false} FirstMatchStays(subs: seq<Subscription>, m: Message, n: nat)
    requires n <= |subs| && FirstMatch(subs[..n], m).Some?
    ensures FirstMatch(subs, m) == FirstMatch(subs[..n], m)
    decreases |subs|
  {
    if n == |subs| {
      assert subs[..n] == subs;
    } else {
      var init := subs[..|subs| - 1];
      assert init[..n] == subs[..n];
      FirstMatchStays(init, m, n);
    }
  }

  /** Once a listing is full, later entries do not change it. */
  lemma {:induction false} ListedSubsFull(subs: seq<Subscription>, tenant: string, n: nat)
    requires n <= |subs| && |ListedSubs(subs[..n], tenant)| == SUBSCRIPTION_LIMIT
    ensures ListedSubs(subs, tenant) == ListedSubs(subs[..n], tenant)
    decreases |subs|
  {
    if n == |subs| {
      assert subs[..n] == subs;
    } else {
      var init := subs[..|subs| - 1];
      assert init[..n] == subs[..n];
      ListedSubsFull(init, tenant, n);
    }
  }

  lemma {:induction false} ListedMessagesFull(order: seq<Id>, buffer: map<Id, Message>, tenant: string, n: nat)
    requires n <= |order| && Distinct(order) && forall id :: id in order ==> id in buffer
    requires |ListedMessages(order[..n], buffer, tenant)| == BUFFER_LIMIT
    ensures ListedMessages(order, buffer, tenant) == ListedMessages(order[..n], buffer, tenant)
    decreases |order|
  {
    if n == |order| {
      assert order[..n] == order;
    } else {
      var init := order[..|order| - 1];
      assert init[..n] == order[..n];
      ListedMessagesFull(init, buffer, tenant, n);
    }
  }

  lemma ExpiredOneMore(buffer: map<Id, Message>, ids: seq<Id>, n: nat, now: int)
    requires (forall id :: id in ids ==> id in buffer) && 0 < n <= |ids| && Distinct(ids)
    ensures var before, id := ExpiredIds(buffer, ids[..n - 1], now), ids[n - 1];
      id !in before && ExpiredIds(buffer, ids[..n], now) == if buffer[id].IsExpired(now) then before + {id} else before
  {
  }

  class Manager {
    var subs: seq<Subscription>
    var buffer: map<Id, Message>
    ghost var published: nat
    ghost var started: nat
    ghost var dropped: nat
    ghost var expired: nat
    ghost var correlated: seq<Correlation>

    ghost function View(): State
      reads this
    {
      State(subs, buffer, published, started, dropped, expired, correlated)
    }

    constructor ()
      ensures Initial(View())
    {
      subs, buffer := [], map[];
      published, started, dropped, expired, correlated := 0, 0, 0, 0, [];
    }

    method ListProcessMessageSubscriptions(tenant: string) returns (listed: seq<Subscription>)
      ensures listed == ListedSubs(subs, tenant)
    {
      listed := [];
      var i := 0;
      while i < |subs| && |listed| < SUBSCRIPTION_LIMIT
        invariant i <= |subs| && listed == ListedSubs(subs[..i], tenant)
      {
        TakeOneMore(subs, i + 1);
        if tenant == "" || subs[i].tenant == tenant {
          listed := listed + [subs[i]];
        }
        i := i + 1;
      }
      if i == |subs| {
        assert subs[..i] == subs;
      } else {
        ListedSubsFull(subs, tenant, i);
      }
    }

    method FindSubscription(m: Message) returns (target: Option<Subscription>)
      ensures target == Target(subs, m)
    {
      var listed := ListProcessMessageSubscriptions(m.tenant);
      for i := 0 to |listed|
        invariant FirstMatch(listed[..i], m) == None
      {
        FirstMatchNext(listed, m, i);
        var sub := listed[i];
        if sub.name == m.name && sub.active {
          if m.key != "" && sub.key != "" && KeyValue(sub.key) != m.key {
            continue;
          }
          return Some(sub);
        }
      }
      assert listed[..|listed|] == listed;
      return None;
    }

    /** The engine's search for a message without a token: name and active flag only, in every tenant. */
    method FindStartSubscription(name: string) returns (target: Option<Subscription>)
      ensures target == Target(subs, AnyOf(name))
    {
      var listed := ListProcessMessageSubscriptions("");
      for i := 0 to |listed|
        invariant FirstMatch(listed[..i], AnyOf(name)) == None
      {
        FirstMatchNext(listed, AnyOf(name), i);
        if listed[i].name == name && listed[i].active {
          return Some(listed[i]);
        }
      }
      assert listed[..|listed|] == listed;
      return None;
    }

    method DeleteProcessMessageSubscription(id: Id)
      modifies this`subs
      ensures subs == Without(old(subs), id)
    {
      var kept := [];
      for i := 0 to |subs|
        invariant subs == old(subs) && kept == Without(subs[..i], id)
      {
        TakeOneMore(subs, i + 1);
        if subs[i].id != id {
          kept := kept + [subs[i]];
        }
      }
      assert subs[..|subs|] == subs;
      subs := kept;
    }

    /** The decision taken is returned; a callback carries `to.id` for a delivery and no token id for a start. */
    method PublishMessage(m: Message, tokens: seq<Held>, newId: Id) returns (decision: Decision)
      modifies this
      ensures View() == Publish(old(View()), m, tokens, newId) && decision == Decide(old(subs), m, tokens)
    {
      var target := FindSubscription(m);
      if target.None? {
        buffer := buffer[newId := m];
        return Buffer;
      }
      var sub := target.value;
      var intermediate := IsIntermediateCatchEvent(tokens, sub.element);
      if !intermediate {
        started := started + 1;
        return StartInstance(sub);
      }
      var waiting := FindWaitingToken(tokens, sub.element, m.name);
      if waiting.None? {
        dropped := dropped + 1;
        return Drop(sub);
      }
      correlated := correlated + [Correlation(sub.id, sub.element, m.name, waiting.value)];
      DeleteProcessMessageSubscription(sub.id);
      return Deliver(sub, waiting.value);
    }

    method ListBufferedMessages(tenant: string, order: seq<Id>) returns (ids: seq<Id>)
      requires Lists(order, buffer)
      ensures ids == ListedMessages(order, buffer, tenant)
    {
      ids := [];
      var i := 0;
      while i < |order| && |ids| < BUFFER_LIMIT
        invariant i <= |order| && ids == ListedMessages(order[..i], buffer, tenant)
      {
        TakeOneMore(order, i + 1);
        if tenant == "" || buffer[order[i]].tenant == tenant {
          ids := ids + [order[i]];
        }
        i := i + 1;
      }
      if i == |order| {
        assert order[..i] == order;
      } else {
        ListedMessagesFull(order, buffer, tenant, i);
      }
    }

    /** The loop of `ProcessBufferedMessages` over the snapshot it has listed. */
    method ProcessBufferedMessages(sub: Subscription, ids: seq<Id>, moments: seq<Moment>) returns (processed: nat)
      requires Ready(buffer, ids, moments)
      modifies this
      ensures View() == Replayed(old(View()), sub, ids, moments, |ids|)
      ensures processed == HandledCount(old(View()), sub, ids, moments, |ids|)
    {
      var snapshot := buffer;
      processed := 0;
      for i := 0 to |ids|
        invariant View() == Replayed(old(View()), sub, ids, moments, i)
        invariant processed == HandledCount(old(View()), sub, ids, moments, i)
      {
        var message := snapshot[ids[i]];
        if message.name != sub.name || (sub.key != "" && message.key != sub.key) || message.IsExpired(moments[i].now) {
          continue;
        }
        var decision := PublishMessage(message.(expires := None), moments[i].tokens, moments[i].newId);
        buffer := buffer - {ids[i]};
        processed := processed + 1;
      }
    }

    /** Stored unless the store has a subscription of the same tenant, process and event. */
    method CreateSubscription(sub: Subscription, at: nat) returns (created: bool)
      requires at <= |subs|
      modifies this`subs
      ensures View() == Subscribed(old(View()), sub, at) && created == !Exists(old(subs), sub)
    {
      for i := 0 to |subs|
        invariant subs == old(subs)
        invariant forall j :: 0 <= j < i ==> !SameEvent(subs[j], sub)
      {
        if subs[i].tenant == sub.tenant && subs[i].process == sub.process && subs[i].element == sub.element {
          return false;
        }
      }
      subs := subs[..at] + [sub] + subs[at..];
      return true;
    }

    /** The buffer is replayed even when the subscription was there already. */
    method CreateMessageSubscription(sub: Subscription, at: nat, order: seq<Id>, moments: seq<Moment>)
      requires Enabled(View(), Subscribing(sub, at, order, moments))
      modifies this
      ensures View() == Apply(old(View()), Subscribing(sub, at, order, moments))
    {
      var created := CreateSubscription(sub, at);
      var ids := ListBufferedMessages(sub.tenant, order);
      var processed := ProcessBufferedMessages(sub, ids, moments);
    }

    method GetSubscriptionByID(id: Id) returns (found: bool)
      ensures found == Findable(subs, id)
    {
      var i := 0;
      while i < |subs| && i < LOOKUP_LIMIT
        invariant i <= |subs| && forall j :: 0 <= j < i ==> subs[j].id != id
      {
        if subs[i].id == id {
          return true;
        }
        i := i + 1;
      }
      return false;
    }

    method DeleteSubscription(id: Id) returns (found: bool)
      modifies this
      ensures View() == Apply(old(View()), Unsubscribing(id)) && found == Findable(old(subs), id)
    {
      found := GetSubscriptionByID(id);
      if found {
        DeleteProcessMessageSubscription(id);
      }
    }

    /** Also how a subscription is activated and deactivated. */
    method UpdateSubscription(sub: Subscription) returns (found: bool)
      modifies this
      ensures View() == Apply(old(View()), Updating(sub)) && found == Findable(old(subs), sub.id)
    {
      found := GetSubscriptionByID(sub.id);
      if found {
        subs := Replaced(subs, sub);
      }
    }

    method CleanupExpiredMessages(now: int, order: seq<Id>) returns (cleaned: nat)
      requires Enabled(View(), Cleaning(now, order))
      modifies this
      ensures View() == Apply(old(View()), Cleaning(now, order)) && cleaned == expired - old(expired)
    {
      var ids := ListBufferedMessages("", order);
      cleaned := DeleteExpired(ids, now);
      expired := expired + cleaned;
    }

    method DeleteExpired(ids: seq<Id>, now: int) returns (cleaned: nat)
      requires Distinct(ids) && forall id :: id in ids ==> id in buffer
      modifies this`buffer
      ensures buffer == old(buffer) - ExpiredIds(old(buffer), ids, now)
      ensures cleaned == |ExpiredIds(old(buffer), ids, now)|
    {
      ghost var was, gone := buffer, ExpiredIds(buffer, [], now);
      cleaned := 0;
      for i := 0 to |ids|
        invariant gone == ExpiredIds(was, ids[..i], now) && buffer == was - gone && cleaned == |gone|
      {
        ExpiredOneMore(was, ids, i + 1, now);
        if buffer[ids[i]].IsExpired(now) {
          buffer := buffer - {ids[i]};
          gone := gone + {ids[i]};
          cleaned := cleaned + 1;
        }
      }
      assert ids[..|ids|] == ids;
    }
  }
}
