/** Message correlation against a running engine: the tokens that publishing reads come from the engine's store at some
    moment of its run, and the callback reaches the engine later in that run. */
module CorrelationRuns {
  import opened Logic
  import opened Messages
  import opened MessageLaws
  import F = TokenFlow
  import TokenInvariants
  import TokenAccounting

  /** The token as the engine's store had it after `k` steps. */
  ghost predicate Seen(engine: seq<F.Event>, h: Held, k: nat)
    requires F.IsRun(F.EMPTY, engine)
  {
    && k <= |engine|
    && h.id in TokenInvariants.AfterFirst(F.EMPTY, engine, k).tokens
    && TokenInvariants.AfterFirst(F.EMPTY, engine, k).tokens[h.id] == h.token
  }

  ghost predicate FromEngine(engine: seq<F.Event>, h: Held)
    requires F.IsRun(F.EMPTY, engine)
  {
    exists k :: Seen(engine, h, k)
  }

  /** Every token the step reads was in the engine's store at some moment, not necessarily the same one. */
  ghost predicate Reads(engine: seq<F.Event>, e: Event)
    requires F.IsRun(F.EMPTY, engine)
  {
    match e
    case Publishing(_, tokens, _) => forall i :: 0 <= i < |tokens| ==> FromEngine(engine, tokens[i])
    case Subscribing(_, _, _, moments) =>
      forall i, j :: 0 <= i < |moments| && 0 <= j < |moments[i].tokens| ==> FromEngine(engine, moments[i].tokens[j])
    case _ => true
  }

  ghost predicate Logged(engine: seq<F.Event>, log: seq<Correlation>)
    requires F.IsRun(F.EMPTY, engine)
  {
    forall i :: 0 <= i < |log| ==> FromEngine(engine, log[i].to)
  }

  lemma PublishLogs(engine: seq<F.Event>, s: State, m: Message, tokens: seq<Held>, newId: Id)
    requires F.IsRun(F.EMPTY, engine) && Logged(engine, s.correlated)
    requires forall i :: 0 <= i < |tokens| ==> FromEngine(engine, tokens[i])
    ensures Logged(engine, Publish(s, m, tokens, newId).correlated)
  {
    if Decide(s.subs, m, tokens).Deliver? {
      FirstWaitingExact(tokens, Target(s.subs, m).value.element, m.name);
    }
  }

  lemma {:induction false} ReplayLogs(engine: seq<F.Event>, s: State, sub: Subscription, ids: seq<Id>,
      moments: seq<Moment>, n: nat)
    requires F.IsRun(F.EMPTY, engine) && Logged(engine, s.correlated) && Ready(s.buffer, ids, moments) && n <= |ids|
    requires forall i, j ::
      0 <= i < |moments| && 0 <= j < |moments[i].tokens| ==> FromEngine(engine, moments[i].tokens[j])
    ensures Logged(engine, Replayed(s, sub, ids, moments, n).correlated)
  {
    if n > 0 {
      ReplayLogs(engine, s, sub, ids, moments, n - 1);
      var z, m := Replayed(s, sub, ids, moments, n - 1), s.buffer[ids[n - 1]];
      PublishLogs(engine, z, m.(expires := None), moments[n - 1].tokens, moments[n - 1].newId);
    }
  }

  lemma StepLogs(engine: seq<F.Event>, s: State, e: Event)
    requires F.IsRun(F.EMPTY, engine) && Logged(engine, s.correlated) && Enabled(s, e) && Reads(engine, e)
    ensures Logged(engine, Apply(s, e).correlated)
  {
    if e.Publishing? {
      PublishLogs(engine, s.(published := s.published + 1), e.m, e.tokens, e.newId);
    } else if e.Subscribing? {
      var ids := ListedMessages(e.order, s.buffer, e.sub.tenant);
      ReplayLogs(engine, Subscribed(s, e.sub, e.at), e.sub, ids, e.moments, |ids|);
    }
  }

  lemma {:induction false} RunLogs(engine: seq<F.Event>, s: State, run: seq<Event>)
    requires F.IsRun(F.EMPTY, engine) && Logged(engine, s.correlated) && IsRun(s, run)
    requires forall i :: 0 <= i < |run| ==> Reads(engine, run[i])
    ensures Logged(engine, After(s, run).correlated)
    decreases |run|
  {
    if run != [] {
      StepLogs(engine, s, run[0]);
      RunLogs(engine, Apply(s, run[0]), run[1..]);
    }
  }

  // ----- The engine keeps a waiting token until a step is about it -----

  /** None of the steps from the `k`th up to the `n`th is about the token. */
  ghost predicate Untouched(engine: seq<F.Event>, k: nat, n: nat, id: F.Id)
    requires n <= |engine|
  {
    forall j :: k <= j < n ==> TokenAccounting.Subject(engine[j]) != id
  }

  /** A finished child instance resumes only tokens that wait for it, so any other wait lasts. */
  lemma {:induction false} WaitLasts(s: F.State, run: seq<F.Event>, id: F.Id, what: string)
    requires F.WellFormed(s) && F.IsRun(s, run) && F.Accepts(s, id, what) && !("call_activity:" <= what)
    requires forall j :: 0 <= j < |run| ==> TokenAccounting.Subject(run[j]) != id
    ensures id in F.After(s, run).tokens && F.After(s, run).tokens[id] == s.tokens[id]
    decreases |run|
  {
    if run != [] {
      TokenAccounting.StepFrame(s, run[0], id);
      TokenInvariants.StepWellFormed(s, run[0]);
      assert !F.AwaitsChild(s.tokens[id], if run[0].Execute? then run[0].flight.token.instance else "");
      WaitLasts(F.Apply(s, run[0]), run[1..], id, what);
    }
  }

  lemma WaitLastsBetween(engine: seq<F.Event>, h: Held, k: nat, n: nat, what: string)
    requires F.IsRun(F.EMPTY, engine) && Seen(engine, h, k) && k <= n <= |engine| && Untouched(engine, k, n, h.id)
    requires h.token.Awaits(what) && !("call_activity:" <= what)
    ensures Seen(engine, h, n)
  {
    var s, rest := TokenInvariants.AfterFirst(F.EMPTY, engine, k), engine[..n][k..];
    TokenInvariants.RunSplits(F.EMPTY, engine, n);
    TokenInvariants.RunSplits(F.EMPTY, engine[..n], k);
    assert engine[..n][..k] == engine[..k];
    TokenInvariants.RunWellFormed(F.EMPTY, engine[..k]);
    forall j | 0 <= j < |rest|
      ensures TokenAccounting.Subject(rest[j]) != h.id
    {
      assert rest[j] == engine[k + j];
    }
    WaitLasts(s, rest, h.id, what);
  }

  lemma AcceptedAt(engine: seq<F.Event>, h: Held, name: string, k: nat, n: nat)
    requires F.IsRun(F.EMPTY, engine) && Seen(engine, h, k) && k <= n <= |engine| && Untouched(engine, k, n, h.id)
    requires h.token.Awaits("message:" + name)
    ensures F.Accepts(TokenInvariants.AfterFirst(F.EMPTY, engine, n), h.id, "message:" + name)
  {
    assert ("message:" + name)[0] == 'm';
    WaitLastsBetween(engine, h, k, n, "message:" + name);
  }

  /** The correlation protocol, over any run of messages beside any run of the engine: no other correlation used the
      same subscription, the token was in the engine's store after some step, and whenever the store has it like that,
      the engine accepts the callback from there on until a step is about that token. */
  lemma CorrelationProtocol(s: State, run: seq<Event>, engine: seq<F.Event>, i: nat)
    requires Initial(s) && IsRun(s, run) && F.IsRun(F.EMPTY, engine)
    requires forall j :: 0 <= j < |run| ==> Reads(engine, run[j])
    requires i < |After(s, run).correlated|
    ensures var log := After(s, run).correlated;
      && FromEngine(engine, log[i].to)
      && (forall j :: 0 <= j < |log| && j != i ==> log[j].sub != log[i].sub)
      && (forall k: nat, n: nat ::
            Seen(engine, log[i].to, k) && k <= n <= |engine| && Untouched(engine, k, n, log[i].to.id) ==>
            F.Accepts(TokenInvariants.AfterFirst(F.EMPTY, engine, n), log[i].to.id, "message:" + log[i].name))
  {
    var log := After(s, run).correlated;
    RunLogs(engine, s, run);
    forall j | 0 <= j < |log| && j != i
      ensures log[j].sub != log[i].sub
    {
      CorrelatesAtMostOnce(s, run, i, j);
    }
    CorrelatesAtMostOnce(s, run, i, i);
    forall k: nat, n: nat |
      Seen(engine, log[i].to, k) && k <= n <= |engine| && Untouched(engine, k, n, log[i].to.id)
      ensures F.Accepts(TokenInvariants.AfterFirst(F.EMPTY, engine, n), log[i].to.id, "message:" + log[i].name)
    {
      AcceptedAt(engine, log[i].to, log[i].name, k, n);
    }
  }

  // ----- Messages for an interrupted token -----

  lemma {:induction false} ElementLasts(s: F.State, run: seq<F.Event>, id: F.Id)
    requires F.WellFormed(s) && F.IsRun(s, run) && id in s.tokens
    requires forall j :: 0 <= j < |run| ==> TokenAccounting.Subject(run[j]) != id
    ensures id in F.After(s, run).tokens && F.After(s, run).tokens[id].element == s.tokens[id].element
    decreases |run|
  {
    if run != [] {
      TokenAccounting.StepFrame(s, run[0], id);
      TokenInvariants.StepWellFormed(s, run[0]);
      ElementLasts(F.Apply(s, run[0]), run[1..], id);
    }
  }

  /** The tokens publishing reads are those of the store. */
  ghost predicate Snapshot(tokens: seq<Held>, s: F.State) {
    && (forall i :: 0 <= i < |tokens| ==>
          tokens[i].id in s.tokens && s.tokens[tokens[i].id] == tokens[i].token)
    && (forall id :: id in s.tokens ==> Held(id, s.tokens[id]) in tokens)
  }

  /** What follows the interruption of a token at `element`, with no further step about the token. */
  ghost predicate AfterInterruption(s: F.State, id: F.Id, element: F.Id, newId: F.Id, run: seq<F.Event>) {
    && F.WellFormed(s) && id in s.tokens && !s.tokens[id].IsCompleted() && newId !in s.tokens
    && F.IsRun(F.Apply(s, F.BoundaryTimer(id, element, true, newId)), run)
    && forall j :: 0 <= j < |run| ==> TokenAccounting.Subject(run[j]) != id
  }

  /** A correlation made before the interruption still reaches the token: its callback is accepted. */
  lemma EarlierMessageAccepted(s: F.State, id: F.Id, element: F.Id, newId: F.Id, run: seq<F.Event>, name: string)
    requires AfterInterruption(s, id, element, newId, run) && F.Accepts(s, id, "message:" + name)
    ensures F.Accepts(F.After(F.Apply(s, F.BoundaryTimer(id, element, true, newId)), run), id, "message:" + name)
  {
    var timer, awaited := F.BoundaryTimer(id, element, true, newId), "message:" + name;
    assert awaited[0] == 'm';
    TokenInvariants.StepWellFormed(s, timer);
    WaitLasts(F.Apply(s, timer), run, id, awaited);
  }

  /** A message published after the interruption does not: the token has left the element of the subscription. It
      starts a new instance exactly when no other token waits at that element. */
  lemma LaterMessageMisses(s: F.State, id: F.Id, element: F.Id, newId: F.Id, run: seq<F.Event>,
      subs: seq<Subscription>, m: Message, tokens: seq<Held>)
    requires AfterInterruption(s, id, element, newId, run)
    requires Snapshot(tokens, F.After(F.Apply(s, F.BoundaryTimer(id, element, true, newId)), run))
    requires Target(subs, m).Some? && Target(subs, m).value.element != element
    ensures var d, z := Decide(subs, m, tokens), F.After(F.Apply(s, F.BoundaryTimer(id, element, true, newId)), run);
      && (d.Deliver? ==> d.to.id != id)
      && (d.StartInstance? <==>
            forall k :: k in z.tokens && k != id ==> !WaitsAt(Held(k, z.tokens[k]), Target(subs, m).value.element))
  {
    var timer, at := F.BoundaryTimer(id, element, true, newId), Target(subs, m).value.element;
    var z := F.After(F.Apply(s, timer), run);
    TokenInvariants.StepWellFormed(s, timer);
    ElementLasts(F.Apply(s, timer), run, id);
    assert z.tokens[id].element == element;
    FirstWaitingExact(tokens, at, m.name);
    WaitingStored(tokens, z, at);
  }

  /** The only token in the store, interrupted: the message that would have reached it starts an instance. */
  lemma InterruptionStartsInstance(s: F.State, id: F.Id, element: F.Id, newId: F.Id, sub: Subscription, m: Message)
    requires F.WellFormed(s) && s.tokens.Keys == {id} && newId != id
    requires Matches(sub, m) && sub.tenant == m.tenant && sub.element != element
    requires WaitsFor(Held(id, s.tokens[id]), sub.element, m.name)
    ensures var z := F.Apply(s, F.BoundaryTimer(id, element, true, newId));
      && Decide([sub], m, [Held(id, s.tokens[id])]) == Deliver(sub, Held(id, s.tokens[id]))
      && id in z.tokens && Decide([sub], m, [Held(id, z.tokens[id])]) == StartInstance(sub)
  {
    var z := F.Apply(s, F.BoundaryTimer(id, element, true, newId));
    var before, after := [Held(id, s.tokens[id])], [Held(id, z.tokens[id])];
    TargetExact([sub], m);
    assert Counted([sub], m.tenant, 0) == 0 && Reachable([sub], m, 0);
    assert WaitsAt(before[0], sub.element);
    FirstWaitingExact(before, sub.element, m.name);
    assert Snapshot(after, z);
    LaterMessageMisses(s, id, element, newId, [], [sub], m, after);
  }

  lemma WaitingStored(tokens: seq<Held>, s: F.State, element: string)
    requires Snapshot(tokens, s)
    ensures (exists i :: 0 <= i < |tokens| && WaitsAt(tokens[i], element)) <==>
      exists k :: k in s.tokens && WaitsAt(Held(k, s.tokens[k]), element)
  {
    forall i | 0 <= i < |tokens|
      ensures tokens[i] == Held(tokens[i].id, s.tokens[tokens[i].id])
    {
    }
    forall k | k in s.tokens
      ensures exists i :: 0 <= i < |tokens| && tokens[i] == Held(k, s.tokens[k])
    {
      assert Held(k, s.tokens[k]) in tokens;
    }
  }
}
