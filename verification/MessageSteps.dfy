/** Matching and the steps of the message machine in full, field by field, without the operations that compute them. */
module MessageSteps {
  import opened Logic
  import opened Text
  import opened Messages
  import opened MessageLaws
  import F = TokenFlow

  // ----- Keys -----

  predicate AllQuotes(s: string) {
    forall i :: 0 <= i < |s| ==> s[i] == '"'
  }

  predicate Unquoted(s: string) {
    s != "" ==> s[0] != '"' && s[|s| - 1] != '"'
  }

  lemma {:induction false} TrimQuotesPadded(a: string, r: string, b: string)
    requires AllQuotes(a) && Unquoted(r) && AllQuotes(b)
    ensures TrimQuotes(a + r + b) == r
    decreases |a| + |b|
  {
    var s := a + r + b;
    if a != "" {
      assert s[1..] == a[1..] + r + b;
      TrimQuotesPadded(a[1..], r, b);
    } else if b != "" {
      if r == "" {
        assert s[1..] == a + r + b[1..];
        TrimQuotesPadded(a, r, b[1..]);
      } else {
        assert s[0] == r[0] && s[|s| - 1] == b[|b| - 1];
        assert s[..|s| - 1] == a + r + b[..|b| - 1];
        TrimQuotesPadded(a, r, b[..|b| - 1]);
      }
    } else {
      assert s == r;
    }
  }

  lemma {:induction false} TrimQuotesSplits(s: string) returns (a: string, b: string)
    ensures AllQuotes(a) && AllQuotes(b) && s == a + TrimQuotes(s) + b && Unquoted(TrimQuotes(s))
    decreases |s|
  {
    a, b := "", "";
    if s == "" {
    } else if s[0] == '"' {
      var l, r := TrimQuotesSplits(s[1..]);
      a, b := [s[0]] + l, r;
      assert s == [s[0]] + s[1..];
    } else if s[|s| - 1] == '"' {
      var l, r := TrimQuotesSplits(s[..|s| - 1]);
      a, b := l, r + [s[|s| - 1]];
      assert s == s[..|s| - 1] + [s[|s| - 1]];
    }
  }

  /** The key of a subscription stands for the text: itself, or without a leading `=`, or without that and all quotes
      around the rest when the rest begins and ends with one. */
  ghost predicate StandsFor(key: string, text: string) {
    if key == "" || key[0] != '=' then text == key
    else if |key| > 1 && key[1] == '"' && key[|key| - 1] == '"' then
      exists a, b :: AllQuotes(a) && AllQuotes(b) && key[1..] == a + text + b && Unquoted(text)
    else text == key[1..]
  }

  lemma StandsForExact(key: string, text: string)
    ensures StandsFor(key, text) <==> KeyValue(key) == text
  {
    assert HasPrefix(key, "=") <==> key != "" && key[0] == '=';
    if HasPrefix(key, "=") {
      var a, b := TrimQuotesSplits(key[1..]);
      forall l, r | AllQuotes(l) && AllQuotes(r) && key[1..] == l + text + r && Unquoted(text)
        ensures TrimQuotes(key[1..]) == text
      {
        TrimQuotesPadded(l, text, r);
      }
    }
  }

  /** A message matches a subscription: active, of the same name, and one of the keys is empty or the subscription's
      stands for the message's. */
  lemma MatchesExact(sub: Subscription, m: Message)
    ensures Matches(sub, m) <==>
      sub.active && sub.name == m.name && (m.key == "" || sub.key == "" || StandsFor(sub.key, m.key))
  {
    StandsForExact(sub.key, m.key);
  }

  // ----- Publishing -----

  predicate Waits(h: Held, element: string) { h.token.state == F.Waiting && h.token.element == element }

  /** Token `i` is the first that waits at the element for the message. */
  predicate FirstFor(tokens: seq<Held>, element: string, name: string, i: int) {
    && 0 <= i < |tokens| && Waits(tokens[i], element) && tokens[i].token.waitingFor == "message:" + name
    && forall j :: 0 <= j < i ==> !(Waits(tokens[j], element) && tokens[j].token.waitingFor == "message:" + name)
  }

  /** A message without a subscription is buffered as it is. */
  lemma BufferedStep(s: State, m: Message, tokens: seq<Held>, newId: Id)
    requires Target(s.subs, m) == None
    ensures Decide(s.subs, m, tokens) == Buffer
    ensures Publish(s, m, tokens, newId) == s.(buffer := s.buffer[newId := m])
  {
  }

  /** Where no token waits at the subscription's element, an instance is started and the subscription stays. */
  lemma StartedStep(s: State, m: Message, tokens: seq<Held>, newId: Id, sub: Subscription)
    requires Target(s.subs, m) == Some(sub) && forall i :: 0 <= i < |tokens| ==> !Waits(tokens[i], sub.element)
    ensures Decide(s.subs, m, tokens) == StartInstance(sub)
    ensures Publish(s, m, tokens, newId) == s.(started := s.started + 1)
  {
    assert forall i :: 0 <= i < |tokens| ==> WaitsAt(tokens[i], sub.element) == Waits(tokens[i], sub.element);
  }

  /** The first token that waits there for the message gets it, and exactly the subscription is deleted. */
  lemma DeliveredStep(s: State, m: Message, tokens: seq<Held>, newId: Id, sub: Subscription, i: nat)
    requires Target(s.subs, m) == Some(sub) && FirstFor(tokens, sub.element, m.name, i)
    ensures Decide(s.subs, m, tokens) == Deliver(sub, tokens[i])
    ensures var z := Publish(s, m, tokens, newId);
      && z == s.(subs := z.subs, correlated := s.correlated + [Correlation(sub.id, sub.element, m.name, tokens[i])])
      && Deletes(s.subs, z.subs, sub.id)
  {
    FirstFound(tokens, sub.element, m.name, i);
    assert WaitsAt(tokens[i], sub.element);
    WithoutDeletes(s.subs, sub.id);
  }

  lemma FirstFound(tokens: seq<Held>, element: string, name: string, i: nat)
    requires FirstFor(tokens, element, name, i)
    ensures FirstWaiting(tokens, element, name) == Some(tokens[i])
  {
    assert WaitsFor(tokens[i], element, name);
    FirstWaitingExact(tokens, element, name);
    var k := FirstWaitingIsFirst(tokens, element, name);
    assert k == i;
  }

  /** Where tokens wait but none of them for the message, it is dropped and the subscription stays. */
  lemma DroppedStep(s: State, m: Message, tokens: seq<Held>, newId: Id, sub: Subscription, i: nat)
    requires Target(s.subs, m) == Some(sub) && i < |tokens| && Waits(tokens[i], sub.element)
    requires forall j :: 0 <= j < |tokens| && Waits(tokens[j], sub.element) ==>
      tokens[j].token.waitingFor != "message:" + m.name
    ensures Decide(s.subs, m, tokens) == Drop(sub)
    ensures Publish(s, m, tokens, newId) == s.(dropped := s.dropped + 1)
  {
    assert WaitsAt(tokens[i], sub.element);
    FirstWaitingExact(tokens, sub.element, m.name);
  }

  // ----- Subscriptions -----

  /** How many of the first `n` subscriptions do not have the id. */
  function KeptCount(subs: seq<Subscription>, id: Id, n: nat): nat
    requires n <= |subs|
  {
    if n == 0 then 0 else KeptCount(subs, id, n - 1) + if subs[n - 1].id == id then 0 else 1
  }

  lemma {:induction false} KeptPrefix(subs: seq<Subscription>, id: Id, k: nat, n: nat)
    requires n <= k <= |subs|
    ensures KeptCount(subs[..k], id, n) == KeptCount(subs, id, n)
  {
    if n > 0 {
      KeptPrefix(subs, id, k, n - 1);
    }
  }

  /** Exactly the subscriptions with the id are gone, and the others are in their order. */
  predicate Deletes(before: seq<Subscription>, after: seq<Subscription>, id: Id) {
    && |after| == KeptCount(before, id, |before|)
    && forall i :: 0 <= i < |before| && before[i].id != id ==>
         KeptCount(before, id, i) < |after| && after[KeptCount(before, id, i)] == before[i]
  }

  lemma {:induction false} WithoutLength(subs: seq<Subscription>, id: Id)
    ensures |Without(subs, id)| == KeptCount(subs, id, |subs|)
    decreases |subs|
  {
    if subs != [] {
      WithoutLength(subs[..|subs| - 1], id);
      KeptPrefix(subs, id, |subs| - 1, |subs| - 1);
    }
  }

  lemma {:induction false} WithoutGrows(subs: seq<Subscription>, id: Id, k: nat)
    requires k <= |subs|
    ensures Without(subs[..k], id) <= Without(subs, id)
    decreases |subs|
  {
    if k == |subs| {
      assert subs[..k] == subs;
    } else {
      var init := subs[..|subs| - 1];
      assert init[..k] == subs[..k];
      WithoutGrows(init, id, k);
    }
  }

  lemma WithoutLast(subs: seq<Subscription>, id: Id)
    requires subs != [] && subs[|subs| - 1].id != id
    ensures var n, kept := KeptCount(subs, id, |subs| - 1), Without(subs, id);
      n < |kept| && kept[n] == subs[|subs| - 1]
  {
    WithoutLength(subs[..|subs| - 1], id);
    KeptPrefix(subs, id, |subs| - 1, |subs| - 1);
  }

  lemma WithoutAt(subs: seq<Subscription>, id: Id, i: nat)
    requires i < |subs| && subs[i].id != id
    ensures var n := KeptCount(subs, id, i); n < |Without(subs, id)| && Without(subs, id)[n] == subs[i]
  {
    var seen := subs[..i + 1];
    KeptPrefix(subs, id, i + 1, i);
    WithoutLast(seen, id);
    WithoutGrows(subs, id, i + 1);
  }

  lemma WithoutDeletes(subs: seq<Subscription>, id: Id)
    ensures Deletes(subs, Without(subs, id), id)
  {
    WithoutLength(subs, id);
    forall i | 0 <= i < |subs| && subs[i].id != id
      ensures KeptCount(subs, id, i) < |Without(subs, id)| && Without(subs, id)[KeptCount(subs, id, i)] == subs[i]
    {
      WithoutAt(subs, id, i);
    }
  }

  /** A subscription is stored at its place in the key order unless one of the same tenant, process and element is. */
  lemma SubscribedStep(s: State, sub: Subscription, at: nat)
    requires at <= |s.subs|
    ensures var z := Subscribed(s, sub, at);
      if exists i :: 0 <= i < |s.subs| && s.subs[i].tenant == sub.tenant && s.subs[i].process == sub.process
           && s.subs[i].element == sub.element
      then z == s
      else
        && z == s.(subs := z.subs) && |z.subs| == |s.subs| + 1 && z.subs[at] == sub
        && (forall i :: 0 <= i < at ==> z.subs[i] == s.subs[i])
        && (forall i :: at <= i < |s.subs| ==> z.subs[i + 1] == s.subs[i])
  {
    if Exists(s.subs, sub) {
      var i :| 0 <= i < |s.subs| && SameEvent(s.subs[i], sub);
    } else {
      assert forall i :: 0 <= i < |s.subs| ==> !SameEvent(s.subs[i], sub);
    }
  }

  /** The id is found among the first 1000 subscriptions. */
  predicate Found(s: State, id: Id) {
    exists i :: 0 <= i < |s.subs| && i < 1000 && s.subs[i].id == id
  }

  /** Deleting by id does nothing unless the id is found, but then deletes every entry of that id. */
  lemma UnsubscribingStep(s: State, id: Id)
    ensures var z := Apply(s, Unsubscribing(id));
      if Found(s, id) then z == s.(subs := z.subs) && Deletes(s.subs, z.subs, id) else z == s
  {
    WithoutDeletes(s.subs, id);
  }

  /** Saving again does nothing unless the id is found, but then replaces every entry of that id. */
  lemma UpdatingStep(s: State, sub: Subscription)
    ensures var z := Apply(s, Updating(sub));
      if Found(s, sub.id) then
        && z == s.(subs := z.subs) && |z.subs| == |s.subs|
        && (forall i :: 0 <= i < |s.subs| ==> z.subs[i] == if s.subs[i].id == sub.id then sub else s.subs[i])
      else z == s
  {
  }

  // ----- The buffer -----

  /** Message `i` in key order is of the tenant, or any if none is asked for. */
  predicate OfTenant(order: seq<Id>, buffer: map<Id, Message>, tenant: string, i: nat)
    requires i < |order| && forall id :: id in order ==> id in buffer
  {
    tenant == "" || buffer[order[i]].tenant == tenant
  }

  function TenantCount(order: seq<Id>, buffer: map<Id, Message>, tenant: string, n: nat): nat
    requires n <= |order| && forall id :: id in order ==> id in buffer
  {
    if n == 0 then 0
    else TenantCount(order, buffer, tenant, n - 1) + if OfTenant(order, buffer, tenant, n - 1) then 1 else 0
  }

  lemma {:induction false} TenantPrefix(order: seq<Id>, buffer: map<Id, Message>, tenant: string, k: nat, n: nat)
    requires n <= k <= |order| && forall id :: id in order ==> id in buffer
    ensures TenantCount(order[..k], buffer, tenant, n) == TenantCount(order, buffer, tenant, n)
  {
    if n > 0 {
      TenantPrefix(order, buffer, tenant, k, n - 1);
    }
  }

  lemma {:induction false} ListedMessagesLength(order: seq<Id>, buffer: map<Id, Message>, tenant: string)
    requires Distinct(order) && forall id :: id in order ==> id in buffer
    ensures var n := TenantCount(order, buffer, tenant, |order|);
      |ListedMessages(order, buffer, tenant)| == if n > 1000 then 1000 else n
    decreases |order|
  {
    if order != [] {
      ListedMessagesLength(order[..|order| - 1], buffer, tenant);
      TenantPrefix(order, buffer, tenant, |order| - 1, |order| - 1);
    }
  }

  lemma {:induction false} ListedMessagesGrow(order: seq<Id>, buffer: map<Id, Message>, tenant: string, k: nat)
    requires Distinct(order) && (forall id :: id in order ==> id in buffer) && k <= |order|
    ensures ListedMessages(order[..k], buffer, tenant) <= ListedMessages(order, buffer, tenant)
    decreases |order|
  {
    if k == |order| {
      assert order[..k] == order;
    } else {
      var init := order[..|order| - 1];
      assert init[..k] == order[..k];
      ListedMessagesGrow(init, buffer, tenant, k);
    }
  }

  lemma ListedMessagesLast(order: seq<Id>, buffer: map<Id, Message>, tenant: string)
    requires Distinct(order) && (forall id :: id in order ==> id in buffer) && order != []
    requires OfTenant(order, buffer, tenant, |order| - 1) && TenantCount(order, buffer, tenant, |order| - 1) < 1000
    ensures var n, ids := TenantCount(order, buffer, tenant, |order| - 1), ListedMessages(order, buffer, tenant);
      n < |ids| && ids[n] == order[|order| - 1]
  {
    ListedMessagesLength(order[..|order| - 1], buffer, tenant);
    TenantPrefix(order, buffer, tenant, |order| - 1, |order| - 1);
  }

  lemma ListedMessageAt(order: seq<Id>, buffer: map<Id, Message>, tenant: string, i: nat)
    requires Distinct(order) && (forall id :: id in order ==> id in buffer) && i < |order|
    requires OfTenant(order, buffer, tenant, i) && TenantCount(order, buffer, tenant, i) < 1000
    ensures var n, ids := TenantCount(order, buffer, tenant, i), ListedMessages(order, buffer, tenant);
      n < |ids| && ids[n] == order[i]
  {
    var seen := order[..i + 1];
    ListedThere(order, seen, buffer, tenant, i);
    ListedMessagesGrow(order, buffer, tenant, i + 1);
    PrefixAt(ListedMessages(seen, buffer, tenant), ListedMessages(order, buffer, tenant),
      TenantCount(order, buffer, tenant, i));
  }

  lemma PrefixAt(a: seq<Id>, b: seq<Id>, n: nat)
    requires a <= b && n < |a|
    ensures n < |b| && b[n] == a[n]
  {
  }

  lemma ListedThere(order: seq<Id>, seen: seq<Id>, buffer: map<Id, Message>, tenant: string, i: nat)
    requires Distinct(order) && (forall id :: id in order ==> id in buffer) && i < |order| && seen == order[..i + 1]
    requires OfTenant(order, buffer, tenant, i) && TenantCount(order, buffer, tenant, i) < 1000
    ensures Distinct(seen) && forall id :: id in seen ==> id in buffer
    ensures var n, ids := TenantCount(order, buffer, tenant, i), ListedMessages(seen, buffer, tenant);
      n < |ids| && ids[n] == order[i]
  {
    assert |seen| == i + 1 && seen[i] == order[i];
    assert TenantCount(seen, buffer, tenant, i) == TenantCount(order, buffer, tenant, i) by {
      TenantPrefix(order, buffer, tenant, i + 1, i);
    }
    assert OfTenant(seen, buffer, tenant, i);
    ListedMessagesLast(seen, buffer, tenant);
  }

  /** The buffer's listing: the tenant's messages in key order, the first 1000. */
  lemma ListedMessagesExact(order: seq<Id>, buffer: map<Id, Message>, tenant: string, i: nat)
    requires Distinct(order) && (forall id :: id in order ==> id in buffer) && i < |order|
    ensures var n, ids := TenantCount(order, buffer, tenant, i), ListedMessages(order, buffer, tenant);
      && (OfTenant(order, buffer, tenant, i) && n < 1000 ==> n < |ids| && ids[n] == order[i])
      && (order[i] in ids <==> OfTenant(order, buffer, tenant, i) && n < 1000)
  {
    if OfTenant(order, buffer, tenant, i) && TenantCount(order, buffer, tenant, i) < 1000 {
      ListedMessageAt(order, buffer, tenant, i);
    } else {
      NotListed(order, buffer, tenant, i);
    }
  }

  lemma {:induction false} NotListed(order: seq<Id>, buffer: map<Id, Message>, tenant: string, i: nat)
    requires Distinct(order) && (forall id :: id in order ==> id in buffer) && i < |order|
    requires !OfTenant(order, buffer, tenant, i) || TenantCount(order, buffer, tenant, i) >= 1000
    ensures order[i] !in ListedMessages(order, buffer, tenant)
    decreases |order|
  {
    var init := order[..|order| - 1];
    TenantPrefix(order, buffer, tenant, |init|, i);
    if i < |init| {
      assert init[i] == order[i] && (OfTenant(init, buffer, tenant, i) <==> OfTenant(order, buffer, tenant, i));
      NotListed(init, buffer, tenant, i);
    } else {
      ListedMessagesLength(init, buffer, tenant);
      assert order[i] !in init;
    }
  }

  /** A cleanup deletes exactly the messages among the first 1000 whose expiry time lies before `now`, and counts
      them; one without an expiry time is never deleted. */
  lemma CleaningStep(s: State, now: int, order: seq<Id>)
    requires Enabled(s, Cleaning(now, order))
    ensures var z := Apply(s, Cleaning(now, order));
      && z == s.(buffer := z.buffer, expired := z.expired)
      && (forall id :: id in z.buffer ==> id in s.buffer && z.buffer[id] == s.buffer[id])
      && (forall i :: 0 <= i < |order| ==>
            (order[i] !in z.buffer <==>
              i < 1000 && s.buffer[order[i]].expires.Some? && s.buffer[order[i]].expires.value < now))
      && z.expired - s.expired == |s.buffer| - |z.buffer|
  {
    var z, ids := Apply(s, Cleaning(now, order)), ListedMessages(order, s.buffer, "");
    var gone := ExpiredIds(s.buffer, ids, now);
    forall i | 0 <= i < |order|
      ensures order[i] in ids <==> i < 1000
    {
      AllOfNoTenant(order, s.buffer, i);
      ListedMessagesExact(order, s.buffer, "", i);
    }
    assert |s.buffer| == |z.buffer| + |gone| by {
      assert z.buffer.Keys == s.buffer.Keys - gone;
    }
  }

  lemma {:induction false} AllOfNoTenant(order: seq<Id>, buffer: map<Id, Message>, n: nat)
    requires (forall id :: id in order ==> id in buffer) && n <= |order|
    ensures TenantCount(order, buffer, "", n) == n
  {
    if n > 0 {
      AllOfNoTenant(order, buffer, n - 1);
    }
  }

  /** Which messages a replay takes out of the buffer: those of the subscription's name, with its key as it is written
      unless that is empty, whose expiry time, if any, does not lie before the moment their turn comes. */
  lemma ReplayTakes(s: State, sub: Subscription, ids: seq<Id>, moments: seq<Moment>, i: nat)
    requires Ready(s.buffer, ids, moments) && i < |ids|
    ensures var m := s.buffer[ids[i]];
      ids[i] !in Replayed(s, sub, ids, moments, |ids|).buffer <==>
        && m.name == sub.name && (sub.key == "" || m.key == sub.key)
        && (m.expires.Some? ==> m.expires.value >= moments[i].now)
  {
    if Handled(s, sub, ids, moments, i) {
      HandledGone(s, sub, ids, moments, |ids|, i);
    } else {
      NotYet(s, sub, ids, moments, |ids|, ids[i]);
    }
  }

  // ----- Every step can happen -----

  lemma {:induction false} KeysListed(keys: set<Id>) returns (order: seq<Id>)
    ensures Distinct(order) && forall id :: id in order <==> id in keys
    decreases |keys|
  {
    order := [];
    if keys != {} {
      var id :| id in keys;
      var rest := KeysListed(keys - {id});
      order := rest + [id];
    }
  }

  /** In every state some key order lists the buffer, and with it every cleanup is possible, and a new subscription at
      any place once enough new ids are drawn; publishing needs one new id, and every other step is always possible. */
  lemma StepsPossible(s: State) returns (order: seq<Id>)
    ensures Lists(order, s.buffer)
    ensures forall now :: Enabled(s, Cleaning(now, order))
    ensures forall m, tokens, newId :: newId !in s.buffer ==> Enabled(s, Publishing(m, tokens, newId))
    ensures forall e: Event :: e.Unsubscribing? || e.Updating? ==> Enabled(s, e)
    ensures forall sub: Subscription, at: nat, moments: seq<Moment> ::
      at <= |s.subs| && (forall i :: 0 <= i < |s.subs| ==> s.subs[i].id != sub.id)
      && (forall i :: 0 <= i < |s.correlated| ==> s.correlated[i].sub != sub.id)
      && |moments| == |ListedMessages(order, s.buffer, sub.tenant)| && NewIds(s, moments)
      ==> Enabled(s, Subscribing(sub, at, order, moments))
  {
    order := KeysListed(s.buffer.Keys);
  }

  predicate NewIds(s: State, moments: seq<Moment>) {
    && (forall i :: 0 <= i < |moments| ==> moments[i].newId !in s.buffer)
    && forall i, j :: 0 <= i < |moments| && 0 <= j < |moments| && i != j ==> moments[i].newId != moments[j].newId
  }
}
