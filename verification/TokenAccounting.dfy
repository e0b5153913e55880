/** How many tokens and executions each step adds, and which tokens it may touch. */
module TokenAccounting {
  import opened TokenFlow
  import opened CompletionSafety

  /** Tokens the step adds to the store. */
  ghost function Added(s: State, e: Event): nat {
    match e
    case Start(_, _, _) => 1
    case Execute(_, r, flows, _) => if Moves(r) && |Resolved(r.next, flows)| >= 2 then |Resolved(r.next, flows)| else 0
    case FollowFlow(_, _) => 0
    case Callback(id, awaited, next, flows, _) =>
      if Accepts(s, id, awaited) && |Resolved(next, flows)| >= 2 then |Resolved(next, flows)| else 0
    case FlowCallback(_, _, _, _) => 0
    case MessageCallback(_, _) => 0
    case BoundaryTimer(id, _, interrupting, _) =>
      if !interrupting && id in s.tokens && !s.tokens[id].IsCompleted() then 1 else 0
  }

  /** Executions the step starts: one per resolved target, or one per parent of the instance it finishes. */
  ghost function Launched(s: State, e: Event): nat {
    match e
    case Start(_, _, _) => 1
    case Execute(f, r, flows, _) =>
      if Moves(r) then |Resolved(r.next, flows)|
      else if Completes(r) && AllCompleted(Checked(s, f, r), f.token.instance) && f.token.instance in s.instances then
        |Parents(Checked(s, f, r), f.token.instance)|
      else 0
    case FollowFlow(_, _) => 1
    case Callback(id, awaited, next, flows, _) => if Accepts(s, id, awaited) then |Resolved(next, flows)| else 0
    case FlowCallback(id, awaited, next, flows) =>
      if Accepts(s, id, awaited) && Resolved(next, flows) != [] then 1 else 0
    case MessageCallback(id, name) => if Accepts(s, id, "message:" + name) then 1 else 0
    case BoundaryTimer(id, _, _, _) => if id in s.tokens && !s.tokens[id].IsCompleted() then 1 else 0
  }

  /** Executions the step ends. */
  function Landed(e: Event): nat { if e.Execute? || e.FollowFlow? then 1 else 0 }

  lemma StoreCount(s: State, id: Id, t: Token)
    ensures |s.Store(id, t).tokens| == |s.tokens| + if id in s.tokens then 0 else 1
  {
    assert s.Store(id, t).tokens.Keys == s.tokens.Keys + {id};
  }

  lemma ResumeCount(s: State, child: Id)
    ensures |Resume(s, child).tokens| == |s.tokens| && |Resume(s, child).flights| == |s.flights| + |Parents(s, child)|
  {
    var ids := Parents(s, child);
    assert Resume(s, child).tokens.Keys == s.tokens.Keys;
    FlightCount(s, ids);
  }

  lemma {:induction false} FlightCount(s: State, ids: set<Id>)
    requires ids <= s.tokens.Keys
    ensures |Resumed(s, ids).flights| == |s.flights| + |ids|
    decreases |ids|
  {
    if ids == {} {
      NoneResumed(s, ids);
    } else {
      var id :| id in ids;
      FlightCount(s, ids - {id});
      ResumedOneMore(s, ids - {id}, id);
      assert ids - {id} + {id} == ids;
    }
  }

  lemma CompletionCount(s: State, instance: Id)
    ensures var z := CheckCompletion(s, instance);
      && |z.tokens| == |s.tokens|
      && |z.flights| == |s.flights|
           + if AllCompleted(s, instance) && instance in s.instances then |Parents(s, instance)| else 0
  {
    var done := s.(instances := s.instances[instance := InstanceCompleted]);
    ResumeCount(done, instance);
    assert Parents(done, instance) == Parents(s, instance);
  }

  lemma MoveCount(s: State, id: Id, t: Token, targets: seq<Id>, newIds: seq<Id>)
    requires |targets| <= |newIds| && id in s.tokens
    requires Distinct(newIds) && forall i :: 0 <= i < |newIds| ==> newIds[i] !in s.tokens
    ensures var z := Move(s, id, t, targets, newIds);
      |z.tokens| == |s.tokens| + (if |targets| >= 2 then |targets| else 0) && |z.flights| == |s.flights| + |targets|
  {
    if |targets| == 1 {
      StoreCount(s, id, t.MoveTo(targets[0]));
    } else if |targets| >= 2 {
      var done := t.SetState(Completed);
      StoreCount(s, id, done);
      ClonedCount(s.Store(id, done), id, done, targets, newIds, |targets|);
      ClonedFlights(s.Store(id, done), id, done, targets, newIds, |targets|, 0);
    }
  }

  ghost predicate Accounts(s: State, e: Event)
    requires Enabled(s, e)
  {
    && |Apply(s, e).tokens| == |s.tokens| + Added(s, e)
    && |Apply(s, e).flights| == |s.flights| - Landed(e) + Launched(s, e)
  }

  lemma ExecuteCount(s: State, e: Event)
    requires e.Execute? && Enabled(s, e) && WellFormed(s)
    ensures Accounts(s, e)
  {
    var f, r, landed := e.flight, e.result, s.Land(e.flight);
    if Moves(r) {
      ResolvedShorter(r.next, e.flows);
      MoveCount(landed, f.id, f.token.SetState(r.state), Resolved(r.next, e.flows), e.newIds);
    } else if Completes(r) {
      CompletedCount(s, e);
    } else if r.ExecError? {
      StoreCount(landed, f.id, f.token.SetState(Failed));
    } else if r.waitingFor != "" {
      StoreCount(landed, f.id, f.token.SetState(r.state).SetWaitingFor(r.waitingFor));
    } else {
      StoreCount(landed, f.id, f.token.SetState(r.state));
    }
  }

  lemma CompletedCount(s: State, e: Event)
    requires e.Execute? && Completes(e.result) && Enabled(s, e) && WellFormed(s)
    ensures Accounts(s, e)
  {
    StoreCount(s.Land(e.flight), e.flight.id, e.flight.token.SetState(e.result.state).SetState(Completed));
    CompletionCount(Checked(s, e.flight, e.result), e.flight.token.instance);
  }

  lemma TimerCount(s: State, e: Event)
    requires e.BoundaryTimer? && Enabled(s, e)
    ensures Accounts(s, e)
  {
    if e.token in s.tokens {
      StoreCount(s, e.token, Interrupted(s.tokens[e.token], e.element));
      StoreCount(s, e.newId, NewToken(s.tokens[e.token].instance, e.element));
    }
  }

  lemma StartCount(s: State, e: Event)
    requires e.Start? && Enabled(s, e)
    ensures Accounts(s, e)
  {
    StoreCount(s, e.token, NewToken(e.instance, e.element));
  }

  lemma FlowCount(s: State, e: Event)
    requires e.FollowFlow? && Enabled(s, e) && WellFormed(s)
    ensures Accounts(s, e)
  {
    var landed := s.Land(e.flight);
    assert |landed.flights| == |s.flights| - 1 && e.flight.id in landed.tokens;
    StoreCount(landed, e.flight.id, e.flight.token.MoveTo(e.target));
  }

  lemma MessageCount(s: State, e: Event)
    requires e.MessageCallback?
    ensures Accounts(s, e)
  {
  }

  lemma CallbackCount(s: State, e: Event)
    requires e.Callback? && Enabled(s, e)
    ensures Accounts(s, e)
  {
    if Accepts(s, e.token, e.awaited) {
      var t := s.tokens[e.token].ClearWaitingFor();
      ResolvedShorter(e.next, e.flows);
      StoreCount(s, e.token, t);
      StoreCount(s, e.token, t.SetState(Completed));
      MoveCount(s.Store(e.token, t), e.token, t, Resolved(e.next, e.flows), e.newIds);
    }
  }

  lemma FlowCallbackCount(s: State, e: Event)
    requires e.FlowCallback?
    ensures Accounts(s, e)
  {
    if Accepts(s, e.token, e.awaited) {
      var t := s.tokens[e.token].ClearWaitingFor();
      StoreCount(s, e.token, t);
      if Resolved(e.next, e.flows) != [] {
        StoreCount(s, e.token, t.MoveTo(Resolved(e.next, e.flows)[0]));
      }
    }
  }

  /** Every step adds exactly the tokens and executions its kind calls for, and ends at most its own execution. */
  lemma StepAccounting(s: State, e: Event)
    requires Enabled(s, e) && WellFormed(s)
    ensures |Apply(s, e).tokens| == |s.tokens| + Added(s, e)
    ensures |Apply(s, e).flights| == |s.flights| - Landed(e) + Launched(s, e)
  {
    assert Accounts(s, e) by {
      if e.Execute? {
        ExecuteCount(s, e);
      } else if e.BoundaryTimer? {
        TimerCount(s, e);
      } else if e.Start? {
        StartCount(s, e);
      } else if e.FollowFlow? {
        FlowCount(s, e);
      } else if e.Callback? {
        CallbackCount(s, e);
      } else if e.FlowCallback? {
        FlowCallbackCount(s, e);
      } else {
        MessageCount(s, e);
      }
    }
  }

  function Subject(e: Event): Id {
    match e
    case Start(_, id, _) => id
    case Execute(f, _, _, _) => f.id
    case FollowFlow(f, _) => f.id
    case Callback(id, _, _, _, _) => id
    case FlowCallback(id, _, _, _) => id
    case MessageCallback(id, _) => id
    case BoundaryTimer(id, _, _, _) => id
  }

  lemma MoveFrame(s: State, id: Id, t: Token, targets: seq<Id>, newIds: seq<Id>, k: Id)
    requires |targets| <= |newIds| && id in s.tokens
    requires Distinct(newIds) && forall i :: 0 <= i < |newIds| ==> newIds[i] !in s.tokens
    requires k in s.tokens && k != id
    ensures var z := Move(s, id, t, targets, newIds); k in z.tokens && z.tokens[k] == s.tokens[k]
  {
    if |targets| >= 2 {
      var done := t.SetState(Completed);
      ClonedTokens(s.Store(id, done), id, done, targets, newIds, |targets|);
    }
  }

  lemma ExecuteFrame(s: State, e: Event, k: Id)
    requires e.Execute? && Enabled(s, e) && WellFormed(s) && k in s.tokens && k != e.flight.id
    ensures k in Apply(s, e).tokens
    ensures Apply(s, e).tokens[k] == s.tokens[k] || ResumedBy(s, e, k)
  {
    var f, r := e.flight, e.result;
    if Moves(r) {
      ResolvedShorter(r.next, e.flows);
      MoveFrame(s.Land(f), f.id, f.token.SetState(r.state), Resolved(r.next, e.flows), e.newIds, k);
    } else if Completes(r) {
      CompletionFrame(Checked(s, f, r), f.token.instance, k);
    }
  }

  lemma CompletionFrame(s: State, instance: Id, k: Id)
    requires k in s.tokens
    ensures var z := CheckCompletion(s, instance);
      && k in z.tokens
      && (z.tokens[k] == s.tokens[k] || z.tokens[k] == s.tokens[k].ClearWaitingFor())
      && (z.tokens[k] != s.tokens[k] ==> IsFinished(z, instance) && AwaitsChild(s.tokens[k], instance))
  {
  }

  /** A step touches its own token only; besides, finishing an instance clears the tokens that wait for it. */
  lemma StepFrame(s: State, e: Event, k: Id)
    requires Enabled(s, e) && WellFormed(s) && k in s.tokens && k != Subject(e)
    ensures k in Apply(s, e).tokens
    ensures Apply(s, e).tokens[k] == s.tokens[k] || ResumedBy(s, e, k)
  {
    if e.Execute? {
      ExecuteFrame(s, e, k);
    } else if e.Callback? && Accepts(s, e.token, e.awaited) {
      var t := s.tokens[e.token].ClearWaitingFor();
      ResolvedShorter(e.next, e.flows);
      MoveFrame(s.Store(e.token, t), e.token, t, Resolved(e.next, e.flows), e.newIds, k);
    }
  }

  ghost predicate ResumedBy(s: State, e: Event, k: Id)
    requires Enabled(s, e) && k in s.tokens && k in Apply(s, e).tokens
  {
    && e.Execute? && IsFinished(Apply(s, e), e.flight.token.instance)
    && AwaitsChild(s.tokens[k], e.flight.token.instance) && Apply(s, e).tokens[k] == s.tokens[k].ClearWaitingFor()
  }
}
