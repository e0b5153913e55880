/** What holds of messages over every replay and every run. */
module MessageLaws {
  import opened Logic
  import opened Text
  import opened Messages

  // ----- Which subscription gets a message -----

  function Counted(subs: seq<Subscription>, tenant: string, n: nat): nat
    requires n <= |subs|
  {
    if n == 0 then 0 else Counted(subs, tenant, n - 1) + if InTenant(subs[n - 1].tenant, tenant) then 1 else 0
  }

  /** Subscription `i` matches and is among the first hundred of the tenant. */
  predicate Reachable(subs: seq<Subscription>, m: Message, i: nat)
    requires i < |subs|
  {
    Matches(subs[i], m) && InTenant(subs[i].tenant, m.tenant) && Counted(subs, m.tenant, i) < SUBSCRIPTION_LIMIT
  }

  lemma {:induction false} CountedPrefix(subs: seq<Subscription>, tenant: string, k: nat, n: nat)
    requires n <= k <= |subs|
    ensures Counted(subs[..k], tenant, n) == Counted(subs, tenant, n)
  {
    if n > 0 {
      CountedPrefix(subs, tenant, k, n - 1);
    }
  }

  lemma {:induction false} ListedLength(subs: seq<Subscription>, tenant: string)
    ensures var n := Counted(subs, tenant, |subs|);
      |ListedSubs(subs, tenant)| == if n < SUBSCRIPTION_LIMIT then n else SUBSCRIPTION_LIMIT
  {
    if subs != [] {
      ListedLength(subs[..|subs| - 1], tenant);
      CountedPrefix(subs, tenant, |subs| - 1, |subs| - 1);
    }
  }

  /** The subscription that gets a message is the first reachable one; there is none exactly when none is reachable. */
  lemma {:induction false} TargetExact(subs: seq<Subscription>, m: Message)
    ensures Target(subs, m).None? <==> forall i :: 0 <= i < |subs| ==> !Reachable(subs, m, i)
    ensures Target(subs, m).Some? ==> exists i :: IsFirst(subs, m, i) && Target(subs, m).value == subs[i]
  {
    if subs != [] {
      var init, n := subs[..|subs| - 1], |subs| - 1;
      TargetExact(init, m);
      ListedLength(init, m.tenant);
      forall i | 0 <= i <= n
        ensures Counted(init, m.tenant, i) == Counted(subs, m.tenant, i)
      {
        CountedPrefix(subs, m.tenant, n, i);
      }
      forall i | 0 <= i < n
        ensures Reachable(init, m, i) == Reachable(subs, m, i)
      {
        assert init[i] == subs[i];
      }
      LastListed(subs, m);
      if Target(init, m).Some? {
        var i :| IsFirst(init, m, i) && Target(init, m).value == init[i];
        assert IsFirst(subs, m, i) && Target(subs, m).value == subs[i];
      } else if Reachable(subs, m, n) {
        assert IsFirst(subs, m, n);
      }
    }
  }

  lemma {:induction false} CountedInTenant(subs: seq<Subscription>, tenant: string, n: nat)
    requires n <= |subs| && forall i :: 0 <= i < n ==> InTenant(subs[i].tenant, tenant)
    ensures Counted(subs, tenant, n) == n
  {
    if n > 0 {
      CountedInTenant(subs, tenant, n - 1);
    }
  }

  /** The hundred and first subscription of a tenant is not seen: behind a hundred that do not match, one that does
      gets nothing, and the message is buffered. */
  lemma HundredFirstUnseen(subs: seq<Subscription>, sub: Subscription, m: Message)
    requires |subs| == 100 && Matches(sub, m) && sub.tenant == m.tenant
    requires forall i :: 0 <= i < |subs| ==> subs[i].tenant == m.tenant && !Matches(subs[i], m)
    ensures Target(subs + [sub], m) == None
  {
    var all := subs + [sub];
    CountedInTenant(all, m.tenant, |subs|);
    forall i | 0 <= i < |all|
      ensures !Reachable(all, m, i)
    {
      assert i < |subs| ==> all[i] == subs[i];
    }
    TargetExact(all, m);
  }

  predicate IsFirst(subs: seq<Subscription>, m: Message, i: int) {
    0 <= i < |subs| && Reachable(subs, m, i) && forall j :: 0 <= j < i ==> !Reachable(subs, m, j)
  }

  lemma LastListed(subs: seq<Subscription>, m: Message)
    requires subs != []
    ensures var init, n := subs[..|subs| - 1], |subs| - 1;
      Target(subs, m) == if Target(init, m).None? && Reachable(subs, m, n) then Some(subs[n]) else Target(init, m)
  {
    var init, n := subs[..|subs| - 1], |subs| - 1;
    ListedLength(init, m.tenant);
    CountedPrefix(subs, m.tenant, n, n);
    var before := ListedSubs(init, m.tenant);
    assert (before + [subs[n]])[..|before|] == before;
  }

  lemma {:induction false} CountedAll(subs: seq<Subscription>, n: nat)
    requires n <= |subs|
    ensures Counted(subs, "", n) == n
  {
    if n > 0 {
      CountedAll(subs, n - 1);
    }
  }

  /** When a message is to start an instance, the engine searches again, by name only. It finds the subscription that
      publishing chose exactly when that one is among the first hundred of all tenants and no active subscription of
      the same name comes before it. */
  lemma StartAgreesExactly(subs: seq<Subscription>, m: Message, i: nat)
    requires IsFirst(subs, m, i)
    ensures IsFirst(subs, AnyOf(m.name), i) <==>
      i < 100 && forall j :: 0 <= j < i ==> !(subs[j].active && subs[j].name == m.name)
  {
    forall j | 0 <= j <= i
      ensures Reachable(subs, AnyOf(m.name), j) <==> subs[j].active && subs[j].name == m.name && j < SUBSCRIPTION_LIMIT
    {
      CountedAll(subs, j);
    }
  }

  /** The first active subscription of the name, and among the first hundred of all tenants. */
  predicate FirstOfName(subs: seq<Subscription>, name: string, j: nat) {
    && j < |subs| && j < 100 && subs[j].active && subs[j].name == name
    && forall k :: 0 <= k < j ==> !(subs[k].active && subs[k].name == name)
  }

  /** The engine starts an instance of the process. */
  predicate Starts(subs: seq<Subscription>, name: string, process: string) {
    Target(subs, AnyOf(name)).Some? && Target(subs, AnyOf(name)).value.process == process
  }

  /** Which process the engine starts: that of the first active subscription of the name, whatever its tenant and key,
      or none when the first hundred have none. */
  lemma StartsExactly(subs: seq<Subscription>, name: string, process: string)
    ensures Starts(subs, name, process) <==> exists j: nat :: FirstOfName(subs, name, j) && subs[j].process == process
  {
    var any := AnyOf(name);
    TargetExact(subs, any);
    forall j | 0 <= j < |subs|
      ensures Reachable(subs, any, j) <==> subs[j].active && subs[j].name == name && j < SUBSCRIPTION_LIMIT
    {
      CountedAll(subs, j);
    }
    if Target(subs, any).Some? {
      var i :| IsFirst(subs, any, i) && Target(subs, any).value == subs[i];
      assert FirstOfName(subs, name, i);
      assert forall j: nat :: FirstOfName(subs, name, j) ==> j == i;
    }
  }

  /** The two differ: for a message of one tenant the engine takes the subscription of another that has the same name
      and comes before, so it starts the process publishing chose only if both are of the same process. */
  lemma StartsAnotherTenant(other: Subscription, sub: Subscription, m: Message)
    requires other.active && other.name == sub.name && other.tenant != sub.tenant && m.tenant == sub.tenant != ""
    requires Matches(sub, m)
    ensures Target([other, sub], m) == Some(sub) && Target([other, sub], AnyOf(m.name)) == Some(other)
    ensures Starts([other, sub], m.name, sub.process) <==> other.process == sub.process
  {
    var subs := [other, sub];
    TargetExact(subs, m);
    TargetExact(subs, AnyOf(m.name));
    assert Counted(subs, m.tenant, 1) == 0 && Counted(subs, "", 0) == 0;
    assert Reachable(subs, m, 1) && !Reachable(subs, m, 0) && Reachable(subs, AnyOf(m.name), 0);
  }

  lemma {:induction false} FirstWaitingExact(tokens: seq<Held>, element: string, name: string)
    ensures FirstWaiting(tokens, element, name).None?
      <==> forall i :: 0 <= i < |tokens| ==> !WaitsFor(tokens[i], element, name)
    ensures var found := FirstWaiting(tokens, element, name);
      found.Some? ==> found.value in tokens && WaitsFor(found.value, element, name)
  {
    if tokens != [] {
      FirstWaitingExact(tokens[..|tokens| - 1], element, name);
    }
  }

  /** It is the first one in the list. */
  lemma {:induction false} FirstWaitingIsFirst(tokens: seq<Held>, element: string, name: string) returns (i: nat)
    requires FirstWaiting(tokens, element, name).Some?
    ensures IsFirstWaiting(tokens, element, name, i) && FirstWaiting(tokens, element, name).value == tokens[i]
    decreases |tokens|
  {
    var init := tokens[..|tokens| - 1];
    if FirstWaiting(init, element, name).Some? {
      i := FirstWaitingIsFirst(init, element, name);
    } else {
      i := |init|;
      FirstWaitingExact(init, element, name);
      assert forall j :: 0 <= j < i ==> tokens[j] == init[j];
    }
  }

  predicate IsFirstWaiting(tokens: seq<Held>, element: string, name: string, i: int) {
    && 0 <= i < |tokens| && WaitsFor(tokens[i], element, name)
    && forall j :: 0 <= j < i ==> !WaitsFor(tokens[j], element, name)
  }

  /** A message is dropped exactly when the chosen subscription's element has a waiting token but none for its name. */
  lemma DroppedExact(subs: seq<Subscription>, m: Message, tokens: seq<Held>)
    ensures Decide(subs, m, tokens).Drop? <==>
      Target(subs, m).Some? && Blocked(tokens, Target(subs, m).value.element, m.name)
  {
    if Target(subs, m).Some? {
      FirstWaitingExact(tokens, Target(subs, m).value.element, m.name);
    }
  }

  predicate Blocked(tokens: seq<Held>, element: string, name: string) {
    && (exists i :: 0 <= i < |tokens| && WaitsAt(tokens[i], element))
    && forall i :: 0 <= i < |tokens| && WaitsAt(tokens[i], element) ==> tokens[i].token.waitingFor != "message:" + name
  }

  /** Replay looks for the key as written, publishing for its value: they choose the same messages exactly here. */
  lemma ReplayAgreesExactly(sub: Subscription, m: Message)
    requires sub.active && sub.name == m.name
    ensures (Picks(sub, m) <==> Matches(sub, m)) <==>
      (sub.key == "" || (m.key != "" && (!HasPrefix(sub.key, "=") || (m.key != sub.key && m.key != KeyValue(sub.key)))))
  {
  }

  /** They differ on a quoted key: publishing takes `x` to match `="x"`, but a buffered message with the key `x` is
      passed over when such a subscription is made. */
  lemma QuotedKeyNotReplayed(s: State, sub: Subscription, id: Id, m: Message, now: Moment)
    requires sub.active && sub.name == m.name && sub.key == "=\"" + m.key + "\""
    requires m.key != "" && m.key[0] != '"' && m.key[|m.key| - 1] != '"'
    ensures Matches(sub, m) && ReplayOne(s, sub, id, m, now) == s
  {
    var quoted, half := "\"" + m.key + "\"", m.key + "\"";
    assert sub.key[1..] == quoted && quoted[1..] == half && half[..|half| - 1] == m.key;
    assert TrimQuotes(m.key) == m.key;
    assert TrimQuotes(half) == m.key;
    assert HasPrefix(sub.key, "=") && sub.key[1] == sub.key[|sub.key| - 1] == '"';
  }

  // ----- Conservation -----

  /** Messages that are still buffered or have met an end. */
  function Total(s: State): nat { |s.buffer| + s.started + s.dropped + |s.correlated| }

  lemma PublishAddsOne(s: State, m: Message, tokens: seq<Held>, newId: Id)
    requires newId !in s.buffer
    ensures Total(Publish(s, m, tokens, newId)) == Total(s) + 1
  {
  }

  /** Message `i` of the snapshot was published again and found no subscription. */
  predicate Copied(s: State, sub: Subscription, ids: seq<Id>, moments: seq<Moment>, i: nat)
    requires Ready(s.buffer, ids, moments) && i < |ids|
  {
    Handled(s, sub, ids, moments, i)
    && Decide(Replayed(s, sub, ids, moments, i).subs, s.buffer[ids[i]].(expires := None), moments[i].tokens).Buffer?
  }

  lemma {:induction false} NotYet(s: State, sub: Subscription, ids: seq<Id>, moments: seq<Moment>, n: nat, id: Id)
    requires Ready(s.buffer, ids, moments) && n <= |ids|
    requires id in s.buffer && forall i :: 0 <= i < n ==> ids[i] != id || !Handled(s, sub, ids, moments, i)
    ensures var z := Replayed(s, sub, ids, moments, n); id in z.buffer && z.buffer[id] == s.buffer[id]
  {
    if n > 0 {
      NotYet(s, sub, ids, moments, n - 1, id);
    }
  }

  lemma {:induction false} StillNew(s: State, sub: Subscription, ids: seq<Id>, moments: seq<Moment>, n: nat, k: nat)
    requires Ready(s.buffer, ids, moments) && n <= k < |ids|
    ensures moments[k].newId !in Replayed(s, sub, ids, moments, n).buffer
  {
    if n > 0 {
      StillNew(s, sub, ids, moments, n - 1, k);
    }
  }

  lemma {:induction false} ReplayKeepsTotal(s: State, sub: Subscription, ids: seq<Id>, moments: seq<Moment>, n: nat)
    requires Ready(s.buffer, ids, moments) && n <= |ids|
    ensures Total(Replayed(s, sub, ids, moments, n)) == Total(s)
  {
    if n > 0 {
      ReplayKeepsTotal(s, sub, ids, moments, n - 1);
      NotYet(s, sub, ids, moments, n - 1, ids[n - 1]);
      StillNew(s, sub, ids, moments, n - 1, n - 1);
      ReplayOneKeepsTotal(Replayed(s, sub, ids, moments, n - 1), sub, ids[n - 1], s.buffer[ids[n - 1]], moments[n - 1]);
    }
  }

  lemma ReplayOneKeepsTotal(s: State, sub: Subscription, id: Id, m: Message, now: Moment)
    requires id in s.buffer && now.newId !in s.buffer
    ensures Total(ReplayOne(s, sub, id, m, now)) == Total(s)
  {
  }

  lemma {:induction false} HandledGone(s: State, sub: Subscription, ids: seq<Id>, moments: seq<Moment>, n: nat, i: nat)
    requires Ready(s.buffer, ids, moments) && i < n <= |ids| && Handled(s, sub, ids, moments, i)
    ensures ids[i] !in Replayed(s, sub, ids, moments, n).buffer
  {
    if i < n - 1 {
      HandledGone(s, sub, ids, moments, n - 1, i);
    }
  }

  lemma {:induction false} CopyStays(s: State, sub: Subscription, ids: seq<Id>, moments: seq<Moment>, n: nat, i: nat)
    requires Ready(s.buffer, ids, moments) && i < n <= |ids| && Copied(s, sub, ids, moments, i)
    ensures var z := Replayed(s, sub, ids, moments, n);
      moments[i].newId in z.buffer && z.buffer[moments[i].newId] == s.buffer[ids[i]].(expires := None)
  {
    if i < n - 1 {
      CopyStays(s, sub, ids, moments, n - 1, i);
    }
  }

  lemma {:induction false} NothingElse(s: State, sub: Subscription, ids: seq<Id>, moments: seq<Moment>, n: nat, id: Id)
    requires Ready(s.buffer, ids, moments) && n <= |ids|
    requires id in Replayed(s, sub, ids, moments, n).buffer && id !in s.buffer
    ensures exists i :: 0 <= i < n && Copied(s, sub, ids, moments, i) && moments[i].newId == id
  {
    if id in Replayed(s, sub, ids, moments, n - 1).buffer {
      NothingElse(s, sub, ids, moments, n - 1, id);
    } else {
      assert Copied(s, sub, ids, moments, n - 1);
    }
  }

  /** Replaying the buffer for a subscription: every message is still there, or has started an instance, reached a
      token or been dropped. What is left in the buffer is what the loop passed over, unchanged, and a copy without
      expiry time of each message that found no subscription after all. */
  lemma BufferConservation(s: State, sub: Subscription, ids: seq<Id>, moments: seq<Moment>)
    requires Ready(s.buffer, ids, moments)
    ensures var z := Replayed(s, sub, ids, moments, |ids|);
      && Total(z) == Total(s)
      && (forall id :: id in s.buffer && id !in ids ==> id in z.buffer && z.buffer[id] == s.buffer[id])
      && (forall i :: 0 <= i < |ids| ==> (ids[i] in z.buffer <==> !Handled(s, sub, ids, moments, i)))
      && (forall i :: 0 <= i < |ids| && ids[i] in z.buffer ==> z.buffer[ids[i]] == s.buffer[ids[i]])
      && (forall i :: 0 <= i < |ids| && Copied(s, sub, ids, moments, i) ==>
            moments[i].newId in z.buffer && z.buffer[moments[i].newId] == s.buffer[ids[i]].(expires := None))
      && (forall id :: id in z.buffer && id !in s.buffer ==>
            exists i :: 0 <= i < |ids| && Copied(s, sub, ids, moments, i) && moments[i].newId == id)
  {
    var z := Replayed(s, sub, ids, moments, |ids|);
    ReplayKeepsTotal(s, sub, ids, moments, |ids|);
    forall id | id in s.buffer && id !in ids
      ensures id in z.buffer && z.buffer[id] == s.buffer[id]
    {
      NotYet(s, sub, ids, moments, |ids|, id);
    }
    forall i | 0 <= i < |ids|
      ensures ids[i] in z.buffer <==> !Handled(s, sub, ids, moments, i)
      ensures ids[i] in z.buffer ==> z.buffer[ids[i]] == s.buffer[ids[i]]
    {
      if Handled(s, sub, ids, moments, i) {
        HandledGone(s, sub, ids, moments, |ids|, i);
      } else {
        NotYet(s, sub, ids, moments, |ids|, ids[i]);
      }
    }
    forall i | 0 <= i < |ids| && Copied(s, sub, ids, moments, i)
      ensures moments[i].newId in z.buffer && z.buffer[moments[i].newId] == s.buffer[ids[i]].(expires := None)
    {
      CopyStays(s, sub, ids, moments, |ids|, i);
    }
    forall id | id in z.buffer && id !in s.buffer
      ensures exists i :: 0 <= i < |ids| && Copied(s, sub, ids, moments, i) && moments[i].newId == id
    {
      NothingElse(s, sub, ids, moments, |ids|, id);
    }
  }

  /** A buffered message without an expiry time stays until a new subscription makes the buffer be replayed. */
  lemma {:induction false} StaysBuffered(s: State, run: seq<Event>, id: Id)
    requires IsRun(s, run) && id in s.buffer && s.buffer[id].expires == None
    requires forall i :: 0 <= i < |run| ==> !run[i].Subscribing?
    ensures id in After(s, run).buffer && After(s, run).buffer[id] == s.buffer[id]
    decreases |run|
  {
    if run != [] {
      StaysBuffered(Apply(s, run[0]), run[1..], id);
    }
  }

  /** A message put back by a replay has lost its expiry time: whatever it was, the copy survives every later run of
      cleanups, publications and deletions. */
  lemma CopyNeverExpires(s: State, sub: Subscription, ids: seq<Id>, moments: seq<Moment>, i: nat, run: seq<Event>)
    requires Ready(s.buffer, ids, moments) && i < |ids| && Copied(s, sub, ids, moments, i)
    requires IsRun(Replayed(s, sub, ids, moments, |ids|), run)
    requires forall j :: 0 <= j < |run| ==> !run[j].Subscribing?
    ensures var z := After(Replayed(s, sub, ids, moments, |ids|), run);
      moments[i].newId in z.buffer && z.buffer[moments[i].newId] == s.buffer[ids[i]].(expires := None)
  {
    CopyStays(s, sub, ids, moments, |ids|, i);
    StaysBuffered(Replayed(s, sub, ids, moments, |ids|), run, moments[i].newId);
  }

  /** It happens with two messages for one waiting token: the first uses the subscription up, and the second is put
      back without its expiry time. */
  lemma SecondMessageCopied(s: State, sub: Subscription, ids: seq<Id>, moments: seq<Moment>, h: Held)
    requires Ready(s.buffer, ids, moments) && |ids| == 2 && s.subs == [sub] && WaitsFor(h, sub.element, sub.name)
    requires forall i :: 0 <= i < 2 ==> moments[i].tokens == [h] && Handled(s, sub, ids, moments, i)
    requires forall i :: 0 <= i < 2 ==> Matches(sub, s.buffer[ids[i]]) && InTenant(sub.tenant, s.buffer[ids[i]].tenant)
    ensures Copied(s, sub, ids, moments, 1)
  {
    var first, second := s.buffer[ids[0]].(expires := None), s.buffer[ids[1]].(expires := None);
    OnlySubscription(sub, first);
    assert [h][..0] == [] && FirstWaiting([h], sub.element, first.name) == Some(h);
    assert WaitsAt(moments[0].tokens[0], sub.element);
    assert Decide(s.subs, first, moments[0].tokens) == Deliver(sub, h);
    var z := Replayed(s, sub, ids, moments, 1);
    assert Replayed(s, sub, ids, moments, 0) == s;
    assert z.subs == Without([sub], sub.id) == [];
    assert Target([], second) == None;
  }

  lemma OnlySubscription(sub: Subscription, m: Message)
    requires Matches(sub, m) && InTenant(sub.tenant, m.tenant)
    ensures Target([sub], m) == Some(sub)
  {
    TargetExact([sub], m);
    assert Counted([sub], m.tenant, 0) == 0;
    assert Reachable([sub], m, 0);
  }

  /** The element of the subscription chosen for message `i` has waiting tokens, none of them for this message. */
  predicate Barred(s: State, sub: Subscription, ids: seq<Id>, moments: seq<Moment>, i: nat)
    requires Ready(s.buffer, ids, moments) && i < |ids|
  {
    var m := s.buffer[ids[i]].(expires := None);
    var chosen := Target(Replayed(s, sub, ids, moments, i).subs, m);
    Handled(s, sub, ids, moments, i) && chosen.Some? && Blocked(moments[i].tokens, chosen.value.element, m.name)
  }

  function BarredCount(s: State, sub: Subscription, ids: seq<Id>, moments: seq<Moment>, n: nat): nat
    requires Ready(s.buffer, ids, moments) && n <= |ids|
  {
    if n == 0 then 0
    else BarredCount(s, sub, ids, moments, n - 1) + if Barred(s, sub, ids, moments, n - 1) then 1 else 0
  }

  /** A replay drops exactly the barred messages. */
  lemma {:induction false} ReplayDropsExactly(s: State, sub: Subscription, ids: seq<Id>, moments: seq<Moment>, n: nat)
    requires Ready(s.buffer, ids, moments) && n <= |ids|
    ensures Replayed(s, sub, ids, moments, n).dropped == s.dropped + BarredCount(s, sub, ids, moments, n)
  {
    if n > 0 {
      ReplayDropsExactly(s, sub, ids, moments, n - 1);
      var z, m := Replayed(s, sub, ids, moments, n - 1), s.buffer[ids[n - 1]].(expires := None);
      DroppedExact(z.subs, m, moments[n - 1].tokens);
    }
  }

  // ----- Runs -----

  /** Every message published so far is in the buffer or has met exactly one end. */
  predicate Accounted(s: State) { s.published == Total(s) + s.expired }

  predicate Matured(c: Correlation) { WaitsFor(c.to, c.element, c.name) }

  /** No subscription has been used up twice, none that has been used up is still stored, and every token was waiting
      for the message it was given. */
  predicate Spent(subs: seq<Subscription>, correlated: seq<Correlation>) {
    && (forall i, j :: 0 <= i < j < |correlated| ==> correlated[i].sub != correlated[j].sub)
    && (forall i, j :: 0 <= i < |subs| && 0 <= j < |correlated| ==> subs[i].id != correlated[j].sub)
    && forall i :: 0 <= i < |correlated| ==> Matured(correlated[i])
  }

  predicate Sound(s: State) { Accounted(s) && Spent(s.subs, s.correlated) }

  lemma PublishKeepsSpent(s: State, m: Message, tokens: seq<Held>, newId: Id)
    requires Spent(s.subs, s.correlated)
    ensures var z := Publish(s, m, tokens, newId); Spent(z.subs, z.correlated)
  {
    if Decide(s.subs, m, tokens).Deliver? {
      var sub := Target(s.subs, m).value;
      assert sub in s.subs by {
        TargetExact(s.subs, m);
      }
      FirstWaitingExact(tokens, sub.element, m.name);
    }
  }

  lemma {:induction false} ReplayKeepsSpent(s: State, sub: Subscription, ids: seq<Id>, moments: seq<Moment>, n: nat)
    requires Ready(s.buffer, ids, moments) && n <= |ids| && Spent(s.subs, s.correlated)
    ensures var z := Replayed(s, sub, ids, moments, n);
      Spent(z.subs, z.correlated) && z.published == s.published && z.expired == s.expired
  {
    if n > 0 {
      ReplayKeepsSpent(s, sub, ids, moments, n - 1);
      var z, id := Replayed(s, sub, ids, moments, n - 1), ids[n - 1];
      PublishKeepsSpent(z, s.buffer[id].(expires := None), moments[n - 1].tokens, moments[n - 1].newId);
    }
  }

  lemma InsertKeepsSpent(s: State, sub: Subscription, at: nat)
    requires at <= |s.subs| && Spent(s.subs, s.correlated) && Unused(s, sub.id)
    ensures var z := Subscribed(s, sub, at); Spent(z.subs, z.correlated)
  {
  }

  lemma SubscribingKeeps(s: State, e: Event)
    requires e.Subscribing? && Enabled(s, e) && Sound(s)
    ensures Sound(Apply(s, e))
  {
    var ids, z := ListedMessages(e.order, s.buffer, e.sub.tenant), Subscribed(s, e.sub, e.at);
    InsertKeepsSpent(s, e.sub, e.at);
    ReplayKeepsTotal(z, e.sub, ids, e.moments, |ids|);
    ReplayKeepsSpent(z, e.sub, ids, e.moments, |ids|);
  }

  lemma UnsubscribingKeeps(s: State, e: Event)
    requires e.Unsubscribing? && Sound(s)
    ensures Sound(Apply(s, e))
  {
  }

  lemma UpdatingKeeps(s: State, e: Event)
    requires e.Updating? && Sound(s)
    ensures Sound(Apply(s, e))
  {
  }

  lemma CleaningKeeps(s: State, e: Event)
    requires e.Cleaning? && Enabled(s, e) && Sound(s)
    ensures Sound(Apply(s, e))
  {
  }

  lemma PublishKeeps(s: State, m: Message, tokens: seq<Held>, newId: Id)
    requires newId !in s.buffer && s.published == Total(s) + s.expired + 1 && Spent(s.subs, s.correlated)
    ensures Sound(Publish(s, m, tokens, newId))
  {
    var z := Publish(s, m, tokens, newId);
    assert Accounted(z) by {
      PublishAddsOne(s, m, tokens, newId);
    }
    assert Spent(z.subs, z.correlated) by {
      PublishKeepsSpent(s, m, tokens, newId);
    }
  }

  lemma PublishingKeeps(s: State, e: Event)
    requires e.Publishing? && Enabled(s, e) && Sound(s)
    ensures Sound(Apply(s, e))
  {
    var z := s.(published := s.published + 1);
    assert Total(z) == Total(s) && z.buffer == s.buffer;
    PublishKeeps(z, e.m, e.tokens, e.newId);
    assert Apply(s, e) == Publish(z, e.m, e.tokens, e.newId);
  }

  lemma StepKeeps(s: State, e: Event)
    requires Enabled(s, e) && Sound(s)
    ensures Sound(Apply(s, e))
  {
    if e.Publishing? {
      PublishingKeeps(s, e);
    } else if e.Subscribing? {
      SubscribingKeeps(s, e);
    } else if e.Unsubscribing? {
      UnsubscribingKeeps(s, e);
    } else if e.Updating? {
      UpdatingKeeps(s, e);
    } else {
      CleaningKeeps(s, e);
    }
  }

  lemma {:induction false} RunKeeps(s: State, run: seq<Event>)
    requires IsRun(s, run) && Sound(s)
    ensures Sound(After(s, run))
    decreases |run|
  {
    if run != [] {
      StepKeeps(s, run[0]);
      RunKeeps(Apply(s, run[0]), run[1..]);
    }
  }

  /** No message is lost or duplicated over any run. */
  lemma MessageConservation(s: State, run: seq<Event>)
    requires Initial(s) && IsRun(s, run)
    ensures var z := After(s, run);
      z.published == |z.buffer| + z.started + |z.correlated| + z.dropped + z.expired
  {
    RunKeeps(s, run);
  }

  /** Over any run a subscription hands at most one token a message, and that token was waiting for it. */
  lemma CorrelatesAtMostOnce(s: State, run: seq<Event>, i: nat, j: nat)
    requires Initial(s) && IsRun(s, run)
    requires i < |After(s, run).correlated| && j < |After(s, run).correlated|
    ensures var log := After(s, run).correlated;
      (log[i].sub == log[j].sub ==> i == j) && WaitsFor(log[i].to, log[i].element, log[i].name)
  {
    RunKeeps(s, run);
    assert Matured(After(s, run).correlated[i]);
  }
}
