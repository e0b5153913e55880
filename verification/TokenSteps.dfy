/** Every step of the token machine in full, field by field: the token it saves, the executions it starts and ends, and
    that nothing else changes. None of these statements goes through the token operations themselves. */
module TokenSteps {
  import opened TokenFlow

  // ----- Targets -----

  /** How many of the first `n` flows lead to an element. */
  function Leading(next: seq<string>, flows: map<string, Id>, n: nat): nat
    requires n <= |next|
  {
    if n == 0 then 0 else Leading(next, flows, n - 1) + if next[n - 1] in flows then 1 else 0
  }

  lemma {:induction false} LeadingPrefix(next: seq<string>, flows: map<string, Id>, k: nat, n: nat)
    requires n <= k <= |next|
    ensures Leading(next[..k], flows, n) == Leading(next, flows, n)
  {
    if n > 0 {
      LeadingPrefix(next, flows, k, n - 1);
    }
  }

  /** The targets are those of the flows that lead somewhere, in the order of the flows, and no others. */
  lemma {:induction false} TargetsExact(next: seq<string>, flows: map<string, Id>)
    ensures |Resolved(next, flows)| == Leading(next, flows, |next|)
    ensures forall i :: 0 <= i < |next| && next[i] in flows ==>
      var n := Leading(next, flows, i); n < |Resolved(next, flows)| && Resolved(next, flows)[n] == flows[next[i]]
    decreases |next|
  {
    if next != [] {
      var init := next[..|next| - 1];
      TargetsExact(init, flows);
      forall i | 0 <= i <= |init|
        ensures Leading(init, flows, i) == Leading(next, flows, i)
      {
        LeadingPrefix(next, flows, |init|, i);
      }
      forall i | 0 <= i < |init| && next[i] in flows
        ensures var n := Leading(next, flows, i);
          n < |Resolved(next, flows)| && Resolved(next, flows)[n] == flows[next[i]]
      {
        assert init[i] == next[i];
      }
    }
  }

  // ----- Executions -----

  /** A new instance is active, and its only token executes at the start element. */
  lemma StartStep(s: State, instance: Id, id: Id, element: Id)
    requires Enabled(s, Start(instance, id, element))
    ensures var t := Token(instance, element, "", "", Active, "");
      Apply(s, Start(instance, id, element))
        == State(s.tokens[id := t], s.instances[instance := InstanceActive], s.flights + multiset{Flight(id, t)})
  {
  }

  /** An executor that fails leaves the token FAILED where it is. */
  lemma FailedStep(s: State, f: Flight, flows: map<string, Id>, newIds: seq<Id>)
    requires Enabled(s, Execute(f, ExecError, flows, newIds))
    ensures var t := f.token;
      Apply(s, Execute(f, ExecError, flows, newIds))
        == State(s.tokens[f.id := Token(t.instance, t.element, t.previous, t.parent, Failed, t.waitingFor)],
             s.instances, s.flights - multiset{f})
  {
  }

  /** A result to wait for something makes the token wait for it where it is, whatever else the result says. */
  lemma WaitStep(s: State, f: Flight, r: ExecResult, flows: map<string, Id>, newIds: seq<Id>)
    requires Enabled(s, Execute(f, r, flows, newIds)) && r.ExecResult? && r.waitingFor != ""
    ensures var t := Token(f.token.instance, f.token.element, f.token.previous, f.token.parent, Waiting, r.waitingFor);
      Apply(s, Execute(f, r, flows, newIds)) == State(s.tokens[f.id := t], s.instances, s.flights - multiset{f})
  {
  }

  /** Every other stored token of the instance has ended. */
  ghost predicate OthersEnded(s: State, instance: Id, id: Id) {
    forall k :: k in s.tokens && k != id && s.tokens[k].instance == instance ==>
      s.tokens[k].state == Completed || s.tokens[k].state == Canceled || s.tokens[k].state == Failed
  }

  predicate WaitsForChild(s: State, k: Id, child: Id) {
    k in s.tokens && s.tokens[k].state == Waiting && s.tokens[k].waitingFor == "call_activity:" + child
  }

  /** A completed result completes the token. When that was the last token of a stored instance, the instance is
      completed too, and exactly the other tokens that wait for it as their child are active again and execute. */
  lemma CompletionStep(s: State, f: Flight, r: ExecResult, flows: map<string, Id>, newIds: seq<Id>)
    requires Enabled(s, Execute(f, r, flows, newIds)) && r.ExecResult? && r.waitingFor == "" && r.completed
    ensures var z, instance := Apply(s, Execute(f, r, flows, newIds)), f.token.instance;
      var t := Token(instance, f.token.element, f.token.previous, f.token.parent, Completed, f.token.waitingFor);
      if instance in s.instances && OthersEnded(s, instance, f.id) then
        && z.instances == s.instances[instance := InstanceCompleted]
        && z.tokens.Keys == s.tokens.Keys + {f.id} && z.tokens[f.id] == t
        && (forall k :: k in s.tokens && k != f.id ==>
              z.tokens[k] == if WaitsForChild(s, k, instance) then Awoken(s.tokens[k]) else s.tokens[k])
        && z.flights == s.flights - multiset{f}
             + multiset(set k | k in s.tokens && k != f.id && WaitsForChild(s, k, instance) ::
                          Flight(k, Awoken(s.tokens[k])))
      else z == State(s.tokens[f.id := t], s.instances, s.flights - multiset{f})
  {
    var instance, t := f.token.instance, f.token;
    var done := Token(instance, t.element, t.previous, t.parent, Completed, t.waitingFor);
    var saved := State(s.tokens[f.id := done], s.instances, s.flights - multiset{f});
    CompletionChecked(s, f, r, flows, newIds, saved);
    EndedTokens(s, saved, instance, f.id);
    if instance in s.instances && OthersEnded(s, instance, f.id) {
      ParentsAwoken(s, saved.(instances := s.instances[instance := InstanceCompleted]), instance, f.id);
    }
  }

  lemma CompletionChecked(s: State, f: Flight, r: ExecResult, flows: map<string, Id>, newIds: seq<Id>, saved: State)
    requires Enabled(s, Execute(f, r, flows, newIds)) && r.ExecResult? && r.waitingFor == "" && r.completed
    requires var t := f.token;
      var done := Token(t.instance, t.element, t.previous, t.parent, Completed, t.waitingFor);
      saved == State(s.tokens[f.id := done], s.instances, s.flights - multiset{f})
    ensures Apply(s, Execute(f, r, flows, newIds)) == CheckCompletion(saved, f.token.instance)
  {
  }

  /** The token without what it waited for. */
  function Awoken(t: Token): Token {
    Token(t.instance, t.element, t.previous, t.parent, Active, "")
  }

  lemma EndedTokens(s: State, saved: State, instance: Id, id: Id)
    requires id in saved.tokens && saved.tokens[id].state == Completed
    requires saved.tokens.Keys == s.tokens.Keys + {id}
    requires forall k :: k in s.tokens && k != id ==> saved.tokens[k] == s.tokens[k]
    ensures AllCompleted(saved, instance) <==> OthersEnded(s, instance, id)
  {
  }

  lemma ParentsAwoken(s: State, saved: State, child: Id, id: Id)
    requires id in saved.tokens && saved.tokens[id].state == Completed
    requires saved.tokens.Keys == s.tokens.Keys + {id}
    requires forall k :: k in s.tokens && k != id ==> saved.tokens[k] == s.tokens[k]
    ensures var z := Resume(saved, child);
      && z.instances == saved.instances && z.tokens.Keys == saved.tokens.Keys && z.tokens[id] == saved.tokens[id]
      && (forall k :: k in s.tokens && k != id ==>
            z.tokens[k] == if WaitsForChild(s, k, child) then Awoken(s.tokens[k]) else s.tokens[k])
      && z.flights == saved.flights
           + multiset(set k | k in s.tokens && k != id && WaitsForChild(s, k, child) :: Flight(k, Awoken(s.tokens[k])))
  {
    assert Parents(saved, child) == set k | k in s.tokens && k != id && WaitsForChild(s, k, child);
    assert (set k | k in Parents(saved, child) :: Flight(k, saved.tokens[k].ClearWaitingFor()))
        == set k | k in s.tokens && k != id && WaitsForChild(s, k, child) :: Flight(k, Awoken(s.tokens[k]));
  }

  /** A result with outgoing flows of which one leads to an element moves the token there and executes it. */
  lemma MoveStep(s: State, f: Flight, r: ExecResult, flows: map<string, Id>, newIds: seq<Id>, target: Id)
    requires Enabled(s, Execute(f, r, flows, newIds)) && r.ExecResult? && r.waitingFor == "" && !r.completed
    requires Resolved(r.next, flows) == [target]
    ensures var t := Token(f.token.instance, target, f.token.element, f.token.parent, r.state, f.token.waitingFor);
      Apply(s, Execute(f, r, flows, newIds))
        == State(s.tokens[f.id := t], s.instances, s.flights - multiset{f} + multiset{Flight(f.id, t)})
  {
  }

  /** Outgoing flows that lead nowhere: the execution ends without a trace in the store. */
  lemma LostStep(s: State, f: Flight, r: ExecResult, flows: map<string, Id>, newIds: seq<Id>)
    requires Enabled(s, Execute(f, r, flows, newIds)) && r.ExecResult? && r.waitingFor == "" && !r.completed
    requires r.next != [] && Resolved(r.next, flows) == []
    ensures Apply(s, Execute(f, r, flows, newIds)) == State(s.tokens, s.instances, s.flights - multiset{f})
  {
  }

  /** Without a wait, completion or outgoing flow the token is saved in its new state if the result asks for it. */
  lemma UpdateStep(s: State, f: Flight, r: ExecResult, flows: map<string, Id>, newIds: seq<Id>)
    requires Enabled(s, Execute(f, r, flows, newIds)) && r.ExecResult? && r.waitingFor == "" && !r.completed
    requires r.next == []
    ensures var t := f.token;
      var saved := Token(t.instance, t.element, t.previous, t.parent, r.state, t.waitingFor);
      Apply(s, Execute(f, r, flows, newIds))
        == State(if r.updated then s.tokens[f.id := saved] else s.tokens, s.instances, s.flights - multiset{f})
  {
  }

  // ----- Forks -----

  /** The token a fork of `t` saves at a target: COMPLETED, with the forked token as its parent. */
  function Branch(id: Id, t: Token, target: Id): Token {
    Token(t.instance, target, t.element, id, Completed, "")
  }

  function Branches(id: Id, t: Token, targets: seq<Id>, newIds: seq<Id>, n: nat): (r: seq<Flight>)
    requires n <= |targets| <= |newIds|
    ensures |r| == n && forall i :: 0 <= i < n ==> r[i] == Flight(newIds[i], Branch(id, t, targets[i]))
  {
    if n == 0 then []
    else Branches(id, t, targets, newIds, n - 1) + [Flight(newIds[n - 1], Branch(id, t, targets[n - 1]))]
  }

  /** A fork of `t`: the token itself is completed, there is one new token at each target and each of them executes. */
  ghost predicate Forks(s: State, z: State, id: Id, t: Token, targets: seq<Id>, newIds: seq<Id>)
    requires |targets| <= |newIds|
  {
    && Saves(s, z, id, Token(t.instance, t.element, t.previous, t.parent, Completed, t.waitingFor), newIds, |targets|)
    && (forall i :: 0 <= i < |targets| ==> z.tokens[newIds[i]] == Branch(id, t, targets[i]))
    && z.instances == s.instances
    && z.flights == s.flights + multiset(Branches(id, t, targets, newIds, |targets|))
  }

  /** The token is saved as `t`, the first `n` new ids are in use, and all other tokens are as they were. */
  ghost predicate Saves(s: State, z: State, id: Id, t: Token, newIds: seq<Id>, n: nat)
    requires n <= |newIds|
  {
    && id in z.tokens && z.tokens[id] == t
    && (forall i :: 0 <= i < n ==> newIds[i] in z.tokens)
    && (forall k :: k in s.tokens && k != id ==> k in z.tokens && z.tokens[k] == s.tokens[k])
    && (forall k :: k in z.tokens && k !in s.tokens && k != id ==> k in newIds[..n])
  }

  ghost predicate NewIds(s: State, newIds: seq<Id>) {
    Distinct(newIds) && forall i :: 0 <= i < |newIds| ==> newIds[i] !in s.tokens
  }

  lemma {:induction false} ClonedSaves(s: State, id: Id, t: Token, targets: seq<Id>, newIds: seq<Id>, n: nat)
    requires n <= |targets| <= |newIds| && NewIds(s, newIds) && id in s.tokens
    ensures Saves(s, Cloned(s, id, t, targets, newIds, n), id, s.tokens[id], newIds, n)
  {
    if n > 0 {
      ClonedSaves(s, id, t, targets, newIds, n - 1);
      var clone := t.Clone(id).MoveTo(targets[n - 1]);
      SavesOneMore(s, Cloned(s, id, t, targets, newIds, n - 1), Cloned(s, id, t, targets, newIds, n), id, newIds, n,
        clone);
    }
  }

  lemma SavesOneMore(s: State, y: State, z: State, id: Id, newIds: seq<Id>, n: nat, clone: Token)
    requires 0 < n <= |newIds| && NewIds(s, newIds) && id in s.tokens
    requires Saves(s, y, id, s.tokens[id], newIds, n - 1) && z.tokens == y.tokens[newIds[n - 1] := clone]
    ensures Saves(s, z, id, s.tokens[id], newIds, n)
  {
    assert newIds[..n] == newIds[..n - 1] + [newIds[n - 1]];
  }

  lemma {:induction false} ClonedBranch(s: State, id: Id, t: Token, targets: seq<Id>, newIds: seq<Id>, n: nat, i: nat)
    requires i < n <= |targets| <= |newIds| && NewIds(s, newIds) && t.state == Completed
    ensures var z := Cloned(s, id, t, targets, newIds, n);
      newIds[i] in z.tokens && z.tokens[newIds[i]] == Branch(id, t, targets[i])
  {
    if i < n - 1 {
      ClonedBranch(s, id, t, targets, newIds, n - 1, i);
    }
  }

  lemma {:induction false} ClonedFlights(s: State, id: Id, t: Token, targets: seq<Id>, newIds: seq<Id>, n: nat)
    requires n <= |targets| <= |newIds| && t.state == Completed
    ensures var z := Cloned(s, id, t, targets, newIds, n);
      z.instances == s.instances && z.flights == s.flights + multiset(Branches(id, t, targets, newIds, n))
  {
    if n > 0 {
      ClonedFlights(s, id, t, targets, newIds, n - 1);
      var f := Flight(newIds[n - 1], Branch(id, t, targets[n - 1]));
      OneMore(s.flights, Branches(id, t, targets, newIds, n - 1), f);
    }
  }

  lemma OneMore(flights: multiset<Flight>, more: seq<Flight>, f: Flight)
    ensures flights + multiset(more) + multiset{f} == flights + multiset(more + [f])
  {
  }

  lemma ClonedForks(s: State, id: Id, t: Token, targets: seq<Id>, newIds: seq<Id>)
    requires |targets| <= |newIds| && NewIds(s, newIds) && id in s.tokens && s.tokens[id] == t && t.state == Completed
    ensures Forks(s, Cloned(s, id, t, targets, newIds, |targets|), id, t, targets, newIds)
  {
    var n := |targets|;
    ClonedSaves(s, id, t, targets, newIds, n);
    forall i | 0 <= i < n
      ensures Cloned(s, id, t, targets, newIds, n).tokens[newIds[i]] == Branch(id, t, targets[i])
    {
      ClonedBranch(s, id, t, targets, newIds, n, i);
    }
    ClonedFlights(s, id, t, targets, newIds, n);
  }

  /** A fork after the token itself has been saved. */
  lemma ForksSaved(s: State, saved: State, z: State, id: Id, t: Token, u: Token, targets: seq<Id>, newIds: seq<Id>)
    requires |targets| <= |newIds| && NewIds(s, newIds) && id in s.tokens && t.(state := u.state) == u
    requires saved.tokens == s.tokens[id := t] && saved.instances == s.instances && saved.flights == s.flights
    requires Forks(saved, z, id, t, targets, newIds)
    ensures Forks(s, z, id, u, targets, newIds)
  {
    SameBranches(id, t, u, targets, newIds);
  }

  lemma MoveForks(s: State, id: Id, t: Token, targets: seq<Id>, newIds: seq<Id>)
    requires 2 <= |targets| <= |newIds| && NewIds(s, newIds) && id in s.tokens
    ensures Forks(s, Move(s, id, t, targets, newIds), id, t, targets, newIds)
  {
    var done := t.SetState(Completed);
    ClonedForks(s.Store(id, done), id, done, targets, newIds);
    ForksSaved(s, s.Store(id, done), Move(s, id, t, targets, newIds), id, done, t, targets, newIds);
  }

  /** The state of the token before a fork does not show in it. */
  lemma SameBranches(id: Id, t: Token, u: Token, targets: seq<Id>, newIds: seq<Id>)
    requires |targets| <= |newIds| && t.(state := u.state) == u
    ensures Branches(id, t, targets, newIds, |targets|) == Branches(id, u, targets, newIds, |targets|)
  {
  }

  /** A result with outgoing flows of which several lead to elements forks the token. */
  lemma ForkStep(s: State, f: Flight, r: ExecResult, flows: map<string, Id>, newIds: seq<Id>)
    requires Enabled(s, Execute(f, r, flows, newIds)) && f.id in s.tokens
    requires r.ExecResult? && r.waitingFor == "" && !r.completed && |Resolved(r.next, flows)| >= 2
    ensures |Resolved(r.next, flows)| <= |newIds|
    ensures Forks(State(s.tokens, s.instances, s.flights - multiset{f}), Apply(s, Execute(f, r, flows, newIds)), f.id,
      f.token, Resolved(r.next, flows), newIds)
  {
    ResolvedShorter(r.next, flows);
    var landed := State(s.tokens, s.instances, s.flights - multiset{f});
    MoveForks(landed, f.id, f.token.SetState(r.state), Resolved(r.next, flows), newIds);
    SameFork(landed, Apply(s, Execute(f, r, flows, newIds)), f.id, f.token.SetState(r.state), f.token,
      Resolved(r.next, flows), newIds);
  }

  lemma SameFork(s: State, z: State, id: Id, t: Token, u: Token, targets: seq<Id>, newIds: seq<Id>)
    requires |targets| <= |newIds| && Forks(s, z, id, t, targets, newIds) && t.(state := u.state) == u
    ensures Forks(s, z, id, u, targets, newIds)
  {
    SameBranches(id, t, u, targets, newIds);
  }

  // ----- Callbacks -----

  /** A sequence flow puts the token at its target and executes it. */
  lemma FlowStep(s: State, f: Flight, target: Id)
    requires Enabled(s, FollowFlow(f, target))
    ensures var t := f.token;
      var moved := Token(t.instance, target, t.element, t.parent, t.state, t.waitingFor);
      Apply(s, FollowFlow(f, target))
        == State(s.tokens[f.id := moved], s.instances, s.flights - multiset{f} + multiset{Flight(f.id, moved)})
  {
  }

  /** A callback for something the token does not wait for, or for no token, changes nothing. */
  lemma RejectedStep(s: State, e: Event, id: Id, awaited: string)
    requires Enabled(s, e)
    requires id in s.tokens ==> s.tokens[id].state != Waiting || s.tokens[id].waitingFor != awaited
    requires || (e.Callback? && e.token == id && e.awaited == awaited)
             || (e.FlowCallback? && e.token == id && e.awaited == awaited)
             || (e.MessageCallback? && e.token == id && "message:" + e.name == awaited)
    ensures Apply(s, e) == s
  {
  }

  /** An accepted job or message callback ends the wait. Without outgoing flows the token is completed; along one that
      leads somewhere it moves and executes, along several it forks; otherwise it stays, active and not executing. */
  lemma CallbackStep(s: State, e: Event)
    requires e.Callback? && Enabled(s, e)
    requires e.token in s.tokens && s.tokens[e.token].state == Waiting && s.tokens[e.token].waitingFor == e.awaited
    ensures |Resolved(e.next, e.flows)| <= |e.newIds|
    ensures var z, t, targets := Apply(s, e), s.tokens[e.token], Resolved(e.next, e.flows);
      if e.next == [] then
        z == State(s.tokens[e.token := Token(t.instance, t.element, t.previous, t.parent, Completed, "")],
          s.instances, s.flights)
      else if |targets| == 0 then z == State(s.tokens[e.token := Awoken(t)], s.instances, s.flights)
      else if |targets| == 1 then
        var moved := Token(t.instance, targets[0], t.element, t.parent, Active, "");
        z == State(s.tokens[e.token := moved], s.instances, s.flights + multiset{Flight(e.token, moved)})
      else Forks(s, z, e.token, Awoken(t), targets, e.newIds)
  {
    ResolvedShorter(e.next, e.flows);
    if |Resolved(e.next, e.flows)| >= 2 {
      CallbackForks(s, e);
    } else {
      CallbackMoves(s, e);
    }
  }

  lemma CallbackMoves(s: State, e: Event)
    requires e.Callback? && Enabled(s, e) && |Resolved(e.next, e.flows)| < 2
    requires e.token in s.tokens && s.tokens[e.token].state == Waiting && s.tokens[e.token].waitingFor == e.awaited
    ensures var z, t, targets := Apply(s, e), s.tokens[e.token], Resolved(e.next, e.flows);
      if e.next == [] then
        z == State(s.tokens[e.token := Token(t.instance, t.element, t.previous, t.parent, Completed, "")],
          s.instances, s.flights)
      else if |targets| == 0 then z == State(s.tokens[e.token := Awoken(t)], s.instances, s.flights)
      else
        var moved := Token(t.instance, targets[0], t.element, t.parent, Active, "");
        z == State(s.tokens[e.token := moved], s.instances, s.flights + multiset{Flight(e.token, moved)})
  {
  }

  lemma CallbackForks(s: State, e: Event)
    requires e.Callback? && Enabled(s, e) && 2 <= |Resolved(e.next, e.flows)| <= |e.newIds|
    requires e.token in s.tokens && s.tokens[e.token].state == Waiting && s.tokens[e.token].waitingFor == e.awaited
    ensures Forks(s, Apply(s, e), e.token, Awoken(s.tokens[e.token]), Resolved(e.next, e.flows), e.newIds)
  {
    var t, targets := s.tokens[e.token], Resolved(e.next, e.flows);
    var saved := s.Store(e.token, Awoken(t));
    assert Apply(s, e) == Move(saved, e.token, Awoken(t), targets, e.newIds);
    MoveForks(saved, e.token, Awoken(t), targets, e.newIds);
    ForksSaved(s, saved, Apply(s, e), e.token, Awoken(t), Awoken(t), targets, e.newIds);
  }

  /** An accepted timer callback ends the wait, and the token moves along the first flow that leads somewhere. */
  lemma TimerStep(s: State, e: Event)
    requires e.FlowCallback? && Enabled(s, e)
    requires e.token in s.tokens && s.tokens[e.token].state == Waiting && s.tokens[e.token].waitingFor == e.awaited
    ensures var z, t, targets := Apply(s, e), s.tokens[e.token], Resolved(e.next, e.flows);
      if targets == [] then z == State(s.tokens[e.token := Awoken(t)], s.instances, s.flights)
      else
        var moved := Token(t.instance, targets[0], t.element, t.parent, Active, "");
        z == State(s.tokens[e.token := moved], s.instances, s.flights + multiset{Flight(e.token, moved)})
  {
  }

  /** The engine's own message callback executes the token without its wait, but does not save it. */
  lemma MessageStep(s: State, id: Id, name: string)
    requires id in s.tokens && s.tokens[id].state == Waiting && s.tokens[id].waitingFor == "message:" + name
    ensures Apply(s, MessageCallback(id, name))
         == State(s.tokens, s.instances, s.flights + multiset{Flight(id, Awoken(s.tokens[id]))})
  {
  }

  /** A boundary timer does nothing to a token that is gone or has ended. Otherwise an interrupting one moves the token
      to the boundary event, ending its wait only if that is for a job, and any other puts a new token there. */
  lemma BoundaryStep(s: State, id: Id, element: Id, interrupting: bool, newId: Id)
    requires Enabled(s, BoundaryTimer(id, element, interrupting, newId))
    ensures var z := Apply(s, BoundaryTimer(id, element, interrupting, newId));
      if id !in s.tokens || s.tokens[id].state == Completed || s.tokens[id].state == Canceled
        || s.tokens[id].state == Failed then z == s
      else
        var t := s.tokens[id];
        if !interrupting then
          var created := Token(t.instance, element, "", "", Active, "");
          z == State(s.tokens[newId := created], s.instances, s.flights + multiset{Flight(newId, created)})
        else
          var free := t.state == Waiting && "job:" <= t.waitingFor;
          var moved := Token(t.instance, element, t.element, t.parent, if free then Active else t.state,
            if free then "" else t.waitingFor);
          z == State(s.tokens[id := moved], s.instances, s.flights + multiset{Flight(id, moved)})
  {
  }

  // ----- A whole instance -----

  /** The token executes and goes on along a flow to `target`. */
  function Hop(id: Id, t: Token, flow: string, target: Id, spare: Id): Event {
    Execute(Flight(id, t), ExecResult(Active, "", false, [flow], false), map[flow := target], [spare])
  }

  /** The token after it has gone from element to element along `path`. */
  function Arrived(t: Token, path: seq<Id>): Token {
    if path == [] then t
    else
      var from := if |path| == 1 then t.element else path[|path| - 2];
      Token(t.instance, path[|path| - 1], from, t.parent, Active, t.waitingFor)
  }

  function Hops(id: Id, t: Token, path: seq<Id>, flow: string, spare: Id): seq<Event>
    decreases |path|
  {
    if path == [] then []
    else [Hop(id, t, flow, path[0], spare)] + Hops(id, Arrived(t, path[..1]), path[1..], flow, spare)
  }

  lemma HopStep(s: State, id: Id, t: Token, flow: string, target: Id, spare: Id)
    requires Flight(id, t) in s.flights && spare !in s.tokens
    ensures var z := Token(t.instance, target, t.element, t.parent, Active, t.waitingFor);
      && Enabled(s, Hop(id, t, flow, target, spare))
      && Apply(s, Hop(id, t, flow, target, spare))
         == State(s.tokens[id := z], s.instances, s.flights - multiset{Flight(id, t)} + multiset{Flight(id, z)})
  {
    var e := Hop(id, t, flow, target, spare);
    assert [flow][..0] == [] && Resolved([flow], e.flows) == [target];
    MoveStep(s, e.flight, e.result, e.flows, e.newIds, target);
  }

  lemma RunStep(s: State, e: Event, rest: seq<Event>)
    requires Enabled(s, e) && IsRun(Apply(s, e), rest)
    ensures IsRun(s, [e] + rest) && After(s, [e] + rest) == After(Apply(s, e), rest)
  {
    assert ([e] + rest)[1..] == rest;
  }

  lemma {:induction false} RunThen(s: State, a: seq<Event>, b: seq<Event>)
    requires IsRun(s, a) && IsRun(After(s, a), b)
    ensures IsRun(s, a + b) && After(s, a + b) == After(After(s, a), b)
    decreases |a|
  {
    if a == [] {
      assert a + b == b;
    } else {
      RunThen(Apply(s, a[0]), a[1..], b);
      RunStep(s, a[0], a[1..] + b);
      assert a + b == [a[0]] + (a[1..] + b);
    }
  }

  /** The state in which the executing token is `u` instead of `t`. */
  function Replaced(s: State, id: Id, t: Token, u: Token): State {
    State(s.tokens[id := u], s.instances, s.flights - multiset{Flight(id, t)} + multiset{Flight(id, u)})
  }

  lemma ReplacedTwice(s: State, id: Id, t: Token, u: Token, z: Token)
    ensures Replaced(Replaced(s, id, t, u), id, u, z) == Replaced(s, id, t, z)
  {
    AddedRemoved(s.flights - multiset{Flight(id, t)}, Flight(id, u));
    assert s.tokens[id := u][id := z] == s.tokens[id := z];
  }

  lemma AddedRemoved(flights: multiset<Flight>, f: Flight)
    ensures flights + multiset{f} - multiset{f} == flights
  {
  }

  lemma ArrivedTwice(t: Token, path: seq<Id>)
    requires path != []
    ensures Arrived(Arrived(t, path[..1]), path[1..]) == Arrived(t, path)
    ensures Arrived(t, path[..1]) == Token(t.instance, path[0], t.element, t.parent, Active, t.waitingFor)
  {
  }

  /** Beside whatever else is stored and executing, the token goes through the elements of the path in order. */
  lemma {:induction false} PathFollowed(s: State, id: Id, t: Token, path: seq<Id>, flow: string, spare: Id)
    requires id in s.tokens && s.tokens[id] == t && Flight(id, t) in s.flights && spare !in s.tokens
    ensures IsRun(s, Hops(id, t, path, flow, spare))
    ensures After(s, Hops(id, t, path, flow, spare)) == Replaced(s, id, t, Arrived(t, path))
    decreases |path|
  {
    if path == [] {
      assert s.tokens[id := t] == s.tokens;
    } else {
      var u, rest := Arrived(t, path[..1]), path[1..];
      ArrivedTwice(t, path);
      HopStep(s, id, t, flow, path[0], spare);
      PathFollowed(Replaced(s, id, t, u), id, u, rest, flow, spare);
      ReplacedTwice(s, id, t, u, Arrived(t, path));
      RunStep(s, Hop(id, t, flow, path[0], spare), Hops(id, u, rest, flow, spare));
    }
  }

  /** The only token of the only instance, executing. */
  function Alone(id: Id, t: Token): State {
    State(map[id := t], map[t.instance := InstanceActive], multiset{Flight(id, t)})
  }

  function Finish(id: Id, t: Token): Event {
    Execute(Flight(id, t), ExecResult(Active, "", true, [], false), map[], [])
  }

  lemma AloneFollows(id: Id, t: Token, path: seq<Id>, flow: string, spare: Id)
    requires spare != id
    ensures IsRun(Alone(id, t), Hops(id, t, path, flow, spare))
    ensures After(Alone(id, t), Hops(id, t, path, flow, spare)) == Alone(id, Arrived(t, path))
  {
    PathFollowed(Alone(id, t), id, t, path, flow, spare);
    AloneReplaced(id, t, Arrived(t, path));
  }

  lemma AloneReplaced(id: Id, t: Token, u: Token)
    requires u.instance == t.instance
    ensures Replaced(Alone(id, t), id, t, u) == Alone(id, u)
  {
    var f, g := Flight(id, t), Flight(id, u);
    assert multiset{f} - multiset{f} + multiset{g} == multiset{g};
    assert map[id := t][id := u] == map[id := u];
  }

  lemma AloneFinishes(id: Id, t: Token, path: seq<Id>, flow: string, spare: Id)
    requires spare != id && t.waitingFor == ""
    ensures var run, u := Hops(id, t, path, flow, spare) + [Finish(id, Arrived(t, path))], Arrived(t, path);
      var z := Token(t.instance, u.element, u.previous, t.parent, Completed, "");
      && IsRun(Alone(id, t), run) && |run| == |path| + 1
      && After(Alone(id, t), run) == State(map[id := z], map[t.instance := InstanceCompleted], multiset{})
  {
    var u := Arrived(t, path);
    AloneFollows(id, t, path, flow, spare);
    LastStep(Alone(id, u), id, u);
    RunStep(Alone(id, u), Finish(id, u), []);
    assert [Finish(id, u)] + [] == [Finish(id, u)];
    RunThen(Alone(id, t), Hops(id, t, path, flow, spare), [Finish(id, u)]);
    HopsLength(id, t, path, flow, spare);
  }

  /** An instance of a process without forks, from its start to its end: its one token has gone through the elements
      of the path in order and is completed at the last one, the instance is completed, and nothing executes. */
  lemma StraightProcess(instance: Id, id: Id, start: Id, path: seq<Id>, flow: string, spare: Id)
    returns (run: seq<Event>)
    requires spare != id
    ensures IsRun(EMPTY, run) && |run| == |path| + 2
    ensures var elements := [start] + path;
      var t := Token(instance, elements[|path|], if path == [] then "" else elements[|path| - 1], "", Completed, "");
      After(EMPTY, run) == State(map[id := t], map[instance := InstanceCompleted], multiset{})
  {
    var t, first := Token(instance, start, "", "", Active, ""), Start(instance, id, start);
    StartsAlone(EMPTY, instance, id, start);
    AloneFinishes(id, t, path, flow, spare);
    LastElements(t, path);
    var rest := Hops(id, t, path, flow, spare) + [Finish(id, Arrived(t, path))];
    RunStep(EMPTY, first, rest);
    run := [first] + rest;
  }

  lemma StartsAlone(s: State, instance: Id, id: Id, start: Id)
    requires s == EMPTY
    ensures Enabled(s, Start(instance, id, start))
    ensures Apply(s, Start(instance, id, start)) == Alone(id, Token(instance, start, "", "", Active, ""))
  {
    StartStep(s, instance, id, start);
  }

  lemma LastElements(t: Token, path: seq<Id>)
    requires t.previous == ""
    ensures var elements, u := [t.element] + path, Arrived(t, path);
      u.element == elements[|path|] && u.previous == if path == [] then "" else elements[|path| - 1]
  {
  }

  lemma {:induction false} HopsLength(id: Id, t: Token, path: seq<Id>, flow: string, spare: Id)
    ensures |Hops(id, t, path, flow, spare)| == |path|
    decreases |path|
  {
    if path != [] {
      HopsLength(id, Arrived(t, path[..1]), path[1..], flow, spare);
    }
  }

  lemma LastStep(s: State, id: Id, t: Token)
    requires s == Alone(id, t) && t.waitingFor == ""
    ensures var z := Token(t.instance, t.element, t.previous, t.parent, Completed, "");
      && Enabled(s, Finish(id, t))
      && Apply(s, Finish(id, t)) == State(map[id := z], map[t.instance := InstanceCompleted], multiset{})
  {
    var f, r := Flight(id, t), ExecResult(Active, "", true, [], false);
    var z := Apply(s, Finish(id, t));
    CompletionStep(s, f, r, map[], []);
    assert OthersEnded(s, t.instance, id);
    assert z.tokens == map[id := Token(t.instance, t.element, t.previous, t.parent, Completed, "")];
    assert z.flights == multiset{} by {
      assert s.flights - multiset{f} == multiset{};
    }
  }

  // ----- Every step can happen -----

  /** Enough different ids that are not in use. */
  predicate Drawn(s: State, newIds: seq<Id>, next: seq<string>) {
    && |next| <= |newIds| && (forall i :: 0 <= i < |newIds| ==> newIds[i] !in s.tokens)
    && forall i, j :: 0 <= i < |newIds| && 0 <= j < |newIds| && i != j ==> newIds[i] != newIds[j]
  }

  /** Only new ids are asked for: an instance can start under any new ids, any execution in progress can end with any
      result or follow any flow, and callbacks and boundary timers can come at any time. */
  lemma StepsPossible(s: State, e: Event)
    requires WellFormed(s)
    ensures e.Start? && e.instance !in s.instances && e.token !in s.tokens ==> Enabled(s, e)
    ensures e.Execute? && e.flight in s.flights && e.result.ExecError? && Drawn(s, e.newIds, []) ==> Enabled(s, e)
    ensures e.Execute? && e.flight in s.flights && e.result.ExecResult? && Drawn(s, e.newIds, e.result.next) ==>
      Enabled(s, e)
    ensures e.FollowFlow? && e.flight in s.flights ==> Enabled(s, e)
    ensures e.Callback? && Drawn(s, e.newIds, e.next) ==> Enabled(s, e)
    ensures e.FlowCallback? || e.MessageCallback? ==> Enabled(s, e)
    ensures e.BoundaryTimer? && e.newId !in s.tokens ==> Enabled(s, e)
  {
  }
}
