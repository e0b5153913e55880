/** `ExecutionProcessor` and the engine's callbacks over a store they update in place. `ExecuteToken` is entered by
    recording an execution in progress; its element executor's result arrives with `ProcessExecutionResult`. */
module TokenEngine {
  import opened TokenFlow

  class Engine {
    var tokens: map<Id, Token>
    var instances: map<Id, InstanceState>
    var flights: multiset<Flight>

    function View(): State
      reads this
    {
      State(tokens, instances, flights)
    }

    constructor ()
      ensures View() == EMPTY
    {
      tokens, instances, flights := map[], map[], multiset{};
    }

    /** `ExecuteToken`: the call is in progress until its result is processed. */
    method ExecuteToken(id: Id, token: Token)
      modifies this`flights
      ensures View() == old(View()).Launch(id, token)
    {
      flights := flights + multiset{Flight(id, token)};
    }

    method UpdateToken(id: Id, token: Token)
      modifies this`tokens
      ensures View() == old(View()).Store(id, token)
    {
      tokens := tokens[id := token];
    }

    /** A new instance with its first token, as the message start event callback creates them. */
    method StartInstance(instance: Id, id: Id, element: Id)
      requires Enabled(View(), Start(instance, id, element))
      modifies this
      ensures View() == Apply(old(View()), Start(instance, id, element))
    {
      instances := instances[instance := InstanceActive];
      var token := NewToken(instance, element);
      UpdateToken(id, token);
      ExecuteToken(id, token);
    }

    method ProcessExecutionResult(f: Flight, r: ExecResult, flows: map<string, Id>, newIds: seq<Id>)
      requires Enabled(View(), Execute(f, r, flows, newIds))
      modifies this
      ensures View() == Apply(old(View()), Execute(f, r, flows, newIds))
    {
      flights := flights - multiset{f};
      if r.ExecError? {
        UpdateToken(f.id, f.token.SetState(Failed));
        return;
      }
      var token := f.token.SetState(r.state);
      if r.waitingFor != "" {
        UpdateToken(f.id, token.SetWaitingFor(r.waitingFor));
        return;
      }
      if r.completed {
        UpdateToken(f.id, token.SetState(Completed));
        CheckProcessCompletion(token.instance);
        return;
      }
      if |r.next| > 0 {
        MoveTokenToNextElements(f.id, token, r.next, flows, newIds);
        return;
      }
      if r.updated {
        UpdateToken(f.id, token);
      }
    }

    method MoveTokenToNextElements(id: Id, token: Token, next: seq<string>, flows: map<string, Id>, newIds: seq<Id>)
      requires |next| <= |newIds|
      modifies this
      ensures |Resolved(next, flows)| <= |newIds|
      ensures View() == Move(old(View()), id, token, Resolved(next, flows), newIds)
    {
      var targets := FindTargets(next, flows);
      if |targets| == 0 {
        return;
      }
      if |targets| == 1 {
        var moved := token.MoveTo(targets[0]);
        UpdateToken(id, moved);
        ExecuteToken(id, moved);
        return;
      }
      var done := token.SetState(Completed);
      UpdateToken(id, done);
      ghost var base := View();
      for k := 0 to |targets|
        invariant View() == Cloned(base, id, done, targets, newIds, k)
      {
        var clone := done.Clone(id).MoveTo(targets[k]);
        UpdateToken(newIds[k], clone);
        ExecuteToken(newIds[k], clone);
      }
    }

    method CheckProcessCompletion(instance: Id)
      modifies this
      ensures View() == CheckCompletion(old(View()), instance)
    {
      var allCompleted := true;
      var remaining := set id | id in tokens && tokens[id].instance == instance;
      while remaining != {} && allCompleted
        invariant View() == old(View())
        invariant allCompleted ==>
          forall id :: id in tokens && tokens[id].instance == instance && id !in remaining ==> tokens[id].IsCompleted()
        invariant forall id :: id in remaining ==> id in tokens && tokens[id].instance == instance
        invariant !allCompleted ==> !AllCompleted(View(), instance)
        decreases remaining, allCompleted
      {
        var id :| id in remaining;
        if !tokens[id].IsCompleted() {
          allCompleted := false;
        } else {
          remaining := remaining - {id};
        }
      }
      if allCompleted {
        assert AllCompleted(View(), instance);
        if instance in instances {
          instances := instances[instance := InstanceCompleted];
          HandleCallActivityCompletion(instance);
        }
      }
    }

    method HandleCallActivityCompletion(child: Id)
      modifies this
      ensures View() == Resume(old(View()), child)
    {
      var parents := set id | id in tokens && AwaitsChild(tokens[id], child);
      ghost var start, done: set<Id> := View(), {};
      NoneResumed(start, done);
      while parents != {}
        invariant done !! parents && done + parents == Parents(start, child)
        invariant View() == Resumed(start, done)
        decreases parents
      {
        var id :| id in parents;
        ResumedOneMore(start, done, id);
        ResumeToken(id);
        parents := parents - {id};
        done := done + {id};
      }
    }

    method ResumeToken(id: Id)
      requires id in tokens
      modifies this
      ensures var token := old(tokens[id]).ClearWaitingFor(); View() == old(View()).Store(id, token).Launch(id, token)
    {
      var token := tokens[id].ClearWaitingFor();
      UpdateToken(id, token);
      ExecuteToken(id, token);
    }

    /** The sequence-flow step of `ExecuteToken`. */
    method FollowSequenceFlow(f: Flight, target: Id)
      requires f in flights
      modifies this
      ensures View() == Apply(old(View()), FollowFlow(f, target))
      ensures |flights| == |old(flights)| && f.id in tokens
      ensures tokens[f.id].element == target && tokens[f.id].previous == f.token.element
      ensures tokens[f.id].state == f.token.state && Flight(f.id, tokens[f.id]) in flights
      ensures forall k :: k in old(tokens) && k != f.id ==> k in tokens && tokens[k] == old(tokens)[k]
    {
      flights := flights - multiset{f};
      var token := f.token.MoveTo(target);
      UpdateToken(f.id, token);
      ExecuteToken(f.id, token);
    }

    /** `CallbackHelper.ProcessCallbackAndContinue`, as the job and message callbacks use it: the cleared token is saved
        before it goes on. */
    method ContinueToken(id: Id, awaited: string, outgoing: seq<string>, flows: map<string, Id>, newIds: seq<Id>)
      returns (accepted: bool)
      requires Enabled(View(), Callback(id, awaited, outgoing, flows, newIds))
      modifies this
      ensures View() == Apply(old(View()), Callback(id, awaited, outgoing, flows, newIds))
      ensures accepted <==> Accepts(old(View()), id, awaited)
    {
      accepted := id in tokens && tokens[id].state == Waiting && tokens[id].waitingFor == awaited;
      if !accepted {
        return;
      }
      var token := tokens[id].ClearWaitingFor();
      if |outgoing| == 0 {
        UpdateToken(id, token);
        UpdateToken(id, token.SetState(Completed));
        assert tokens == old(tokens)[id := token.SetState(Completed)];
        return;
      }
      UpdateToken(id, token);
      MoveTokenToNextElements(id, token, outgoing, flows, newIds);
    }

    /** `ProcessCallbackAndContinueWithFlows`, as the event timer callback uses it: only the first target is taken. */
    method ContinueTokenWithFlows(id: Id, awaited: string, outgoing: seq<string>, flows: map<string, Id>)
      returns (moved: bool)
      modifies this
      ensures View() == Apply(old(View()), FlowCallback(id, awaited, outgoing, flows))
      ensures moved <==> Accepts(old(View()), id, awaited) && Resolved(outgoing, flows) != []
    {
      moved := false;
      if id !in tokens || tokens[id].state != Waiting || tokens[id].waitingFor != awaited {
        return;
      }
      var token := tokens[id].ClearWaitingFor();
      UpdateToken(id, token);
      var targets := FindTargets(outgoing, flows);
      if |targets| > 0 {
        token := token.MoveTo(targets[0]);
        UpdateToken(id, token);
        assert tokens == old(tokens)[id := token];
        ExecuteToken(id, token);
        moved := true;
      }
    }

    method FindTargets(outgoing: seq<string>, flows: map<string, Id>) returns (targets: seq<Id>)
      ensures targets == Resolved(outgoing, flows) && |targets| <= |outgoing|
    {
      targets := [];
      for i := 0 to |outgoing|
        invariant targets == Resolved(outgoing[..i], flows) && |targets| <= i
      {
        assert outgoing[..i + 1][..i] == outgoing[..i];
        if outgoing[i] in flows {
          targets := targets + [flows[outgoing[i]]];
        }
      }
      assert outgoing[..|outgoing|] == outgoing;
    }

    /** The waiting state is cleared in memory only; the store keeps it until the execution is processed. */
    method HandleMessageCallback(id: Id, name: string) returns (accepted: bool)
      modifies this
      ensures View() == Apply(old(View()), MessageCallback(id, name))
      ensures accepted <==> id in tokens && tokens[id].state == Waiting && tokens[id].waitingFor == "message:" + name
    {
      accepted := false;
      if id !in tokens {
        return;
      }
      var token := tokens[id];
      if token.state != Waiting || token.waitingFor != "message:" + name {
        return;
      }
      ExecuteToken(id, token.ClearWaitingFor());
      accepted := true;
    }

    method HandleBoundaryTimerCallback(id: Id, element: Id, cancelActivity: bool, newId: Id)
      requires newId !in tokens
      modifies this
      ensures View() == Apply(old(View()), BoundaryTimer(id, element, cancelActivity, newId))
    {
      if id !in tokens || tokens[id].IsCompleted() {
        return;
      }
      var parent := tokens[id];
      if cancelActivity {
        if parent.state == Waiting && "job:" <= parent.waitingFor {
          parent := parent.ClearWaitingFor();
        }
        parent := parent.MoveTo(element);
        UpdateToken(id, parent);
        ExecuteToken(id, parent);
      } else {
        var token := NewToken(parent.instance, element);
        UpdateToken(newId, token);
        ExecuteToken(newId, token);
      }
    }
  }
}
