/** What every step keeps, whatever the state: stored and executing tokens agree. And exactly which steps leave a
    completed instance with a live token. */
module TokenInvariants {
  import opened TokenFlow

  // ----- Stored and executing tokens agree -----

  predicate SameInstance(s: State, id: Id, t: Token) { id in s.tokens ==> s.tokens[id].instance == t.instance }

  lemma WellStore(s: State, id: Id, t: Token)
    requires WellFormed(s) && t.instance in s.instances && SameInstance(s, id, t)
    ensures WellFormed(s.Store(id, t))
  {
  }

  lemma WellLaunch(s: State, id: Id, t: Token)
    requires WellFormed(s) && id in s.tokens && s.tokens[id].instance == t.instance
    ensures WellFormed(s.Launch(id, t))
  {
  }

  lemma WellLand(s: State, f: Flight)
    requires WellFormed(s)
    ensures WellFormed(s.Land(f))
  {
  }

  lemma {:induction false} WellCloned(s: State, id: Id, t: Token, targets: seq<Id>, newIds: seq<Id>, n: nat)
    requires n <= |targets| <= |newIds| && WellFormed(s) && t.instance in s.instances
    requires Distinct(newIds) && forall i :: 0 <= i < |newIds| ==> newIds[i] !in s.tokens
    ensures var z := Cloned(s, id, t, targets, newIds, n);
      && WellFormed(z) && z.instances == s.instances
      && (forall i :: n <= i < |newIds| ==> newIds[i] !in z.tokens)
  {
    if n > 0 {
      WellCloned(s, id, t, targets, newIds, n - 1);
      var z := Cloned(s, id, t, targets, newIds, n - 1);
      var clone := t.Clone(id).MoveTo(targets[n - 1]);
      WellStore(z, newIds[n - 1], clone);
      WellLaunch(z.Store(newIds[n - 1], clone), newIds[n - 1], clone);
    }
  }

  lemma WellMove(s: State, id: Id, t: Token, targets: seq<Id>, newIds: seq<Id>)
    requires |targets| <= |newIds| && WellFormed(s)
    requires id in s.tokens && s.tokens[id].instance == t.instance
    requires Distinct(newIds) && forall i :: 0 <= i < |newIds| ==> newIds[i] !in s.tokens
    ensures WellFormed(Move(s, id, t, targets, newIds))
  {
    if |targets| == 1 {
      var moved := t.MoveTo(targets[0]);
      WellStore(s, id, moved);
      WellLaunch(s.Store(id, moved), id, moved);
    } else if |targets| >= 2 {
      var done := t.SetState(Completed);
      WellStore(s, id, done);
      WellCloned(s.Store(id, done), id, done, targets, newIds, |targets|);
    }
  }

  lemma WellCompletion(s: State, instance: Id)
    requires WellFormed(s)
    ensures WellFormed(CheckCompletion(s, instance))
  {
  }

  lemma WellExecute(s: State, e: Event)
    requires e.Execute? && Enabled(s, e) && WellFormed(s)
    ensures WellFormed(Apply(s, e))
  {
    var f, r, landed := e.flight, e.result, s.Land(e.flight);
    WellLand(s, f);
    if r.ExecError? {
      WellStore(landed, f.id, f.token.SetState(Failed));
    } else if Moves(r) {
      ResolvedShorter(r.next, e.flows);
      WellMove(landed, f.id, f.token.SetState(r.state), Resolved(r.next, e.flows), e.newIds);
    } else if Completes(r) {
      WellStore(landed, f.id, f.token.SetState(r.state).SetState(Completed));
      WellCompletion(Checked(s, f, r), f.token.instance);
    } else {
      WellStore(landed, f.id, f.token.SetState(r.state).SetWaitingFor(r.waitingFor));
      WellStore(landed, f.id, f.token.SetState(r.state));
    }
  }

  lemma WellCallback(s: State, e: Event)
    requires e.Callback? && Enabled(s, e) && WellFormed(s)
    ensures WellFormed(Apply(s, e))
  {
    if Accepts(s, e.token, e.awaited) {
      var t := s.tokens[e.token].ClearWaitingFor();
      WellStore(s, e.token, t);
      WellStore(s, e.token, t.SetState(Completed));
      ResolvedShorter(e.next, e.flows);
      WellMove(s.Store(e.token, t), e.token, t, Resolved(e.next, e.flows), e.newIds);
    }
  }

  lemma WellStoreLaunch(s: State, id: Id, t: Token)
    requires WellFormed(s) && t.instance in s.instances && SameInstance(s, id, t)
    ensures WellFormed(s.Store(id, t).Launch(id, t))
  {
    WellStore(s, id, t);
    WellLaunch(s.Store(id, t), id, t);
  }

  /** Every step keeps stored and executing tokens in agreement. */
  lemma StepWellFormed(s: State, e: Event)
    requires Enabled(s, e) && WellFormed(s)
    ensures WellFormed(Apply(s, e))
  {
    match e
    case Start(instance, id, element) =>
      WellStoreLaunch(s.(instances := s.instances[instance := InstanceActive]), id, NewToken(instance, element));
    case Execute(_, _, _, _) => WellExecute(s, e);
    case FollowFlow(f, target) =>
      WellLand(s, f);
      WellStoreLaunch(s.Land(f), f.id, f.token.MoveTo(target));
    case Callback(_, _, _, _, _) => WellCallback(s, e);
    case FlowCallback(id, awaited, next, flows) =>
      if Accepts(s, id, awaited) {
        var t := s.tokens[id].ClearWaitingFor();
        WellStore(s, id, t);
        if Resolved(next, flows) != [] {
          WellStoreLaunch(s, id, t.MoveTo(Resolved(next, flows)[0]));
        }
      }
    case MessageCallback(id, name) =>
      if id in s.tokens {
        WellLaunch(s, id, s.tokens[id].ClearWaitingFor());
      }
    case BoundaryTimer(id, element, interrupting, newId) =>
      if id in s.tokens {
        WellStoreLaunch(s, id, Interrupted(s.tokens[id], element));
        WellStoreLaunch(s, newId, NewToken(s.tokens[id].instance, element));
      }
  }

  lemma {:induction false} RunWellFormed(s: State, run: seq<Event>)
    requires IsRun(s, run) && WellFormed(s)
    ensures WellFormed(After(s, run))
    decreases |run|
  {
    if run != [] {
      StepWellFormed(s, run[0]);
      RunWellFormed(Apply(s, run[0]), run[1..]);
    }
  }

  // ----- Prefixes of runs -----

  lemma {:induction false} RunSplits(s: State, run: seq<Event>, k: nat)
    requires k <= |run| && IsRun(s, run)
    ensures IsRun(s, run[..k]) && IsRun(After(s, run[..k]), run[k..])
    ensures After(After(s, run[..k]), run[k..]) == After(s, run)
    decreases k
  {
    if k == 0 {
      assert run[..0] == [] && run[0..] == run;
    } else {
      RunSplits(Apply(s, run[0]), run[1..], k - 1);
      assert run[..k][1..] == run[1..][..k - 1] && run[1..][k - 1..] == run[k..];
    }
  }

  /** The state after the first `k` steps. */
  ghost function AfterFirst(s: State, run: seq<Event>, k: nat): State
    requires k <= |run| && IsRun(s, run)
  {
    RunSplits(s, run, k);
    After(s, run[..k])
  }

  lemma AfterFirstStep(s: State, run: seq<Event>, k: nat)
    requires 0 < k <= |run| && IsRun(s, run)
    ensures AfterFirst(s, run, k) == AfterFirst(Apply(s, run[0]), run[1..], k - 1)
  {
    assert run[..k][1..] == run[1..][..k - 1];
  }

  // ----- Exactly which steps make a state unsafe -----

  /** The token the execution leaves in the store is live. */
  predicate LeavesLive(r: ExecResult, flows: map<string, Id>) {
    && r.ExecResult?
    && if r.waitingFor != "" then true
       else if r.completed then false
       else if r.next != [] then |Resolved(r.next, flows)| == 1 && Live(r.state)
       else r.updated && Live(r.state)
  }

  predicate Live(state: TokenState) { state !in {Completed, Canceled, Failed} }

  /** The step saves a live token in an instance that is completed already. */
  predicate Wakes(s: State, e: Event) {
    match e
    case Execute(f, r, flows, _) => IsFinished(s, f.token.instance) && LeavesLive(r, flows)
    case FollowFlow(f, _) => IsFinished(s, f.token.instance) && Live(f.token.state)
    case _ => false
  }

  lemma SafeStore(s: State, id: Id, t: Token)
    requires Safe(s) && SameInstance(s, id, t)
    ensures Safe(s.Store(id, t)) <==> !IsFinished(s, t.instance) || t.IsCompleted()
  {
    var z := s.Store(id, t);
    if !(!IsFinished(s, t.instance) || t.IsCompleted()) {
      assert id in z.tokens && IsFinished(z, z.tokens[id].instance) && !z.tokens[id].IsCompleted();
    }
  }

  lemma SafeStoreLaunch(s: State, id: Id, t: Token)
    requires Safe(s) && SameInstance(s, id, t)
    ensures Safe(s.Store(id, t).Launch(id, t)) <==> !IsFinished(s, t.instance) || t.IsCompleted()
  {
    SafeStore(s, id, t);
    assert Safe(s.Store(id, t)) <==> Safe(s.Store(id, t).Launch(id, t));
  }

  lemma {:induction false} SafeCloned(s: State, id: Id, t: Token, targets: seq<Id>, newIds: seq<Id>, n: nat)
    requires n <= |targets| <= |newIds| && Safe(s) && t.state == Completed
    ensures Safe(Cloned(s, id, t, targets, newIds, n))
  {
    if n > 0 {
      SafeCloned(s, id, t, targets, newIds, n - 1);
    }
  }

  lemma SafeMove(s: State, id: Id, t: Token, targets: seq<Id>, newIds: seq<Id>)
    requires |targets| <= |newIds| && Safe(s) && id in s.tokens && s.tokens[id].instance == t.instance
    ensures Safe(Move(s, id, t, targets, newIds))
      <==> !(IsFinished(s, t.instance) && |targets| == 1 && !t.IsCompleted())
  {
    if |targets| == 1 {
      SafeStoreLaunch(s, id, t.MoveTo(targets[0]));
    } else if |targets| >= 2 {
      var done := t.SetState(Completed);
      SafeStore(s, id, done);
      SafeCloned(s.Store(id, done), id, done, targets, newIds, |targets|);
    }
  }

  /** A parent that goes on waits in an instance that is not completed, since it is live. */
  lemma SafeCompletion(s: State, instance: Id)
    requires Safe(s)
    ensures Safe(CheckCompletion(s, instance))
  {
  }

  lemma SafeExecute(s: State, e: Event)
    requires e.Execute? && Enabled(s, e) && WellFormed(s) && Safe(s)
    ensures Safe(Apply(s, e)) <==> !Wakes(s, e)
  {
    var f, r, landed := e.flight, e.result, s.Land(e.flight);
    if r.ExecError? {
      SafeStore(landed, f.id, f.token.SetState(Failed));
    } else if Moves(r) {
      ResolvedShorter(r.next, e.flows);
      SafeMove(landed, f.id, f.token.SetState(r.state), Resolved(r.next, e.flows), e.newIds);
    } else if Completes(r) {
      SafeStore(landed, f.id, f.token.SetState(r.state).SetState(Completed));
      SafeCompletion(Checked(s, f, r), f.token.instance);
    } else {
      SafeStore(landed, f.id, f.token.SetState(r.state).SetWaitingFor(r.waitingFor));
      SafeStore(landed, f.id, f.token.SetState(r.state));
    }
  }

  lemma SafeCallback(s: State, e: Event)
    requires e.Callback? && Enabled(s, e) && Safe(s)
    ensures Safe(Apply(s, e))
  {
    if Accepts(s, e.token, e.awaited) {
      var t := s.tokens[e.token].ClearWaitingFor();
      SafeStore(s, e.token, t);
      SafeStore(s, e.token, t.SetState(Completed));
      ResolvedShorter(e.next, e.flows);
      SafeMove(s.Store(e.token, t), e.token, t, Resolved(e.next, e.flows), e.newIds);
    }
  }

  /** A step from a safe state is safe exactly when it does not save a live token in a completed instance. */
  lemma SafeStepExact(s: State, e: Event)
    requires Enabled(s, e) && WellFormed(s) && Safe(s)
    ensures Safe(Apply(s, e)) <==> !Wakes(s, e)
  {
    match e
    case Start(instance, id, element) =>
      SafeStore(s.(instances := s.instances[instance := InstanceActive]), id, NewToken(instance, element));
    case Execute(_, _, _, _) => SafeExecute(s, e);
    case FollowFlow(f, target) => SafeStoreLaunch(s.Land(f), f.id, f.token.MoveTo(target));
    case Callback(_, _, _, _, _) => SafeCallback(s, e);
    case FlowCallback(id, awaited, next, flows) =>
      if Accepts(s, id, awaited) {
        var t := s.tokens[id].ClearWaitingFor();
        SafeStore(s, id, t);
        if Resolved(next, flows) != [] {
          SafeStore(s, id, t.MoveTo(Resolved(next, flows)[0]));
        }
      }
    case MessageCallback(_, _) =>
    case BoundaryTimer(id, element, interrupting, newId) =>
      if id in s.tokens {
        SafeStore(s, id, Interrupted(s.tokens[id], element));
        SafeStore(s, newId, NewToken(s.tokens[id].instance, element));
      }
  }

  ghost predicate NeverWakes(s: State, run: seq<Event>)
    requires IsRun(s, run)
    decreases |run|
  {
    run != [] ==> !Wakes(s, run[0]) && NeverWakes(Apply(s, run[0]), run[1..])
  }

  ghost predicate SafeThroughout(s: State, run: seq<Event>)
    requires IsRun(s, run)
  {
    forall k :: 0 <= k <= |run| ==> Safe(AfterFirst(s, run, k))
  }

  lemma SafeThroughoutStep(s: State, run: seq<Event>)
    requires IsRun(s, run) && run != [] && Safe(s)
    ensures SafeThroughout(s, run) <==> SafeThroughout(Apply(s, run[0]), run[1..])
  {
    var z := Apply(s, run[0]);
    forall k | 0 < k <= |run|
      ensures AfterFirst(s, run, k) == AfterFirst(z, run[1..], k - 1)
    {
      AfterFirstStep(s, run, k);
    }
    assert forall k :: 0 <= k <= |run[1..]| ==> AfterFirst(z, run[1..], k) == AfterFirst(s, run, k + 1);
  }

  lemma {:induction false} RunSafeExact(s: State, run: seq<Event>)
    requires IsRun(s, run) && WellFormed(s) && Safe(s)
    ensures SafeThroughout(s, run) <==> NeverWakes(s, run)
    decreases |run|
  {
    if run != [] {
      var z := Apply(s, run[0]);
      SafeThroughoutStep(s, run);
      SafeStepExact(s, run[0]);
      StepWellFormed(s, run[0]);
      if Safe(z) {
        RunSafeExact(z, run[1..]);
      } else {
        assert !Safe(AfterFirst(z, run[1..], 0));
      }
    }
  }

  /** Completion safety of a run, exactly: from the empty store, every state has only completed tokens in its
      completed instances if and only if no step saves a live token in an instance completed before it. */
  lemma CompletionSafetyExact(run: seq<Event>)
    requires IsRun(EMPTY, run)
    ensures SafeThroughout(EMPTY, run) <==> NeverWakes(EMPTY, run)
  {
    RunSafeExact(EMPTY, run);
  }
}
