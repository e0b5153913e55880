/** When a token comes to be executed twice at a time: exactly which steps cause it, over all runs. */
module DoubleExecution {
  import opened TokenFlow
  import opened TokenInvariants
  import opened CompletionSafety

  /** Every token has at most one execution in progress. */
  ghost predicate Single(s: State) {
    && (forall f :: f in s.flights ==> s.flights[f] == 1)
    && (forall f, g :: f in s.flights && g in s.flights && f.id == g.id ==> f == g)
  }

  /** The step starts an execution of a token that has one in progress: a callback is accepted for it, an interrupting
      timer finds it live, or it is a parent waiting for the instance the step completes. */
  ghost predicate Doubles(s: State, e: Event) {
    match e
    case Start(_, _, _) => false
    case Execute(f, r, _, _) =>
      && Completes(r) && f.token.instance in s.instances && AllCompleted(Checked(s, f, r), f.token.instance)
      && exists id :: id in Parents(Checked(s, f, r), f.token.instance) && InFlight(s.Land(f), id)
    case FollowFlow(_, _) => false
    case Callback(id, awaited, next, flows, _) =>
      Accepts(s, id, awaited) && InFlight(s, id) && |Resolved(next, flows)| == 1
    case FlowCallback(id, awaited, next, flows) =>
      Accepts(s, id, awaited) && InFlight(s, id) && Resolved(next, flows) != []
    case MessageCallback(id, name) => Accepts(s, id, "message:" + name) && InFlight(s, id)
    case BoundaryTimer(id, _, interrupting, _) =>
      interrupting && id in s.tokens && !s.tokens[id].IsCompleted() && InFlight(s, id)
  }

  // ----- Small changes -----

  lemma SingleLaunch(s: State, id: Id, t: Token)
    requires Single(s)
    ensures Single(s.Launch(id, t)) <==> !InFlight(s, id)
  {
    var z := s.Launch(id, t);
    if InFlight(s, id) {
      var f :| f in s.flights && f.id == id;
      assert f in z.flights && Flight(id, t) in z.flights;
      assert z.flights[Flight(id, t)] == s.flights[Flight(id, t)] + 1;
    }
  }

  lemma LaunchNeverHelps(s: State, id: Id, t: Token)
    requires !Single(s)
    ensures !Single(s.Launch(id, t))
  {
    var z := s.Launch(id, t);
    if f :| f in s.flights && s.flights[f] != 1 {
      assert f in z.flights && z.flights[f] >= s.flights[f];
    } else {
      var f, g :| f in s.flights && g in s.flights && f.id == g.id && f != g;
      assert f in z.flights && g in z.flights;
    }
  }

  lemma SingleLand(s: State, f: Flight)
    requires Single(s) && f in s.flights
    ensures Single(s.Land(f)) && !InFlight(s.Land(f), f.id)
  {
  }

  lemma SingleStoreLaunch(s: State, id: Id, t: Token)
    requires Single(s)
    ensures Single(s.Store(id, t).Launch(id, t)) <==> !InFlight(s, id)
  {
    SingleLaunch(s.Store(id, t), id, t);
    assert InFlight(s.Store(id, t), id) <==> InFlight(s, id);
  }

  lemma OthersFlyAsBefore(s: State, id: Id, t: Token, k: Id)
    requires k != id
    ensures InFlight(s.Store(id, t).Launch(id, t), k) <==> InFlight(s, k)
  {
    if InFlight(s, k) {
      var f :| f in s.flights && f.id == k;
      assert f in s.Store(id, t).Launch(id, t).flights;
    }
  }

  lemma {:induction false} SingleCloned(s: State, id: Id, t: Token, targets: seq<Id>, newIds: seq<Id>, n: nat)
    requires n <= |targets| <= |newIds| && Single(s) && Distinct(newIds)
    requires forall i :: 0 <= i < |newIds| ==> !InFlight(s, newIds[i])
    ensures var z := Cloned(s, id, t, targets, newIds, n);
      Single(z) && forall i :: n <= i < |newIds| ==> !InFlight(z, newIds[i])
  {
    if n > 0 {
      SingleCloned(s, id, t, targets, newIds, n - 1);
      var z, clone := Cloned(s, id, t, targets, newIds, n - 1), t.Clone(id).MoveTo(targets[n - 1]);
      SingleStoreLaunch(z, newIds[n - 1], clone);
      forall i | n <= i < |newIds|
        ensures !InFlight(z.Store(newIds[n - 1], clone).Launch(newIds[n - 1], clone), newIds[i])
      {
        OthersFlyAsBefore(z, newIds[n - 1], clone, newIds[i]);
      }
    }
  }

  lemma SingleMove(s: State, id: Id, t: Token, targets: seq<Id>, newIds: seq<Id>)
    requires |targets| <= |newIds| && Single(s) && Distinct(newIds)
    requires forall i :: 0 <= i < |newIds| ==> !InFlight(s, newIds[i])
    ensures Single(Move(s, id, t, targets, newIds)) <==> !(|targets| == 1 && InFlight(s, id))
  {
    if |targets| == 1 {
      SingleStoreLaunch(s, id, t.MoveTo(targets[0]));
    } else if |targets| >= 2 {
      var done := t.SetState(Completed);
      assert forall k :: InFlight(s.Store(id, done), k) <==> InFlight(s, k);
      SingleCloned(s.Store(id, done), id, done, targets, newIds, |targets|);
    }
  }

  lemma ResumedFlies(s: State, ids: set<Id>, id: Id)
    requires ids <= s.tokens.Keys && id !in ids
    ensures InFlight(Resumed(s, ids), id) <==> InFlight(s, id)
  {
    if InFlight(s, id) {
      var f :| f in s.flights && f.id == id;
      assert f in Resumed(s, ids).flights;
    }
  }

  lemma {:induction false} SingleResumed(s: State, ids: set<Id>)
    requires Single(s) && ids <= s.tokens.Keys
    ensures Single(Resumed(s, ids)) <==> forall id :: id in ids ==> !InFlight(s, id)
    decreases |ids|
  {
    if ids == {} {
      NoneResumed(s, ids);
    } else {
      var id :| id in ids;
      var before, token := ids - {id}, s.tokens[id].ClearWaitingFor();
      SingleResumed(s, before);
      ResumedFlies(s, before, id);
      ResumedOneMore(s, before, id);
      assert before + {id} == ids;
      var z := Resumed(s, before);
      if Single(z) {
        SingleStoreLaunch(z, id, token);
      } else {
        LaunchNeverHelps(z.Store(id, token), id, token);
      }
    }
  }

  // ----- Steps -----

  lemma SingleExecute(s: State, e: Event)
    requires e.Execute? && Enabled(s, e) && WellFormed(s) && Single(s)
    ensures Single(Apply(s, e)) <==> !Doubles(s, e)
  {
    var f, r, landed := e.flight, e.result, s.Land(e.flight);
    SingleLand(s, f);
    if Moves(r) {
      ResolvedShorter(r.next, e.flows);
      SingleMove(landed, f.id, f.token.SetState(r.state), Resolved(r.next, e.flows), e.newIds);
    } else if Completes(r) {
      SingleCompletion(s, f, r);
    }
  }

  lemma SingleCompletion(s: State, f: Flight, r: ExecResult)
    requires Completes(r) && Single(s.Land(f)) && f.id in s.tokens
    ensures Single(CheckCompletion(Checked(s, f, r), f.token.instance)) <==>
      !(f.token.instance in s.instances && AllCompleted(Checked(s, f, r), f.token.instance)
        && exists id :: id in Parents(Checked(s, f, r), f.token.instance) && InFlight(s.Land(f), id))
  {
    var checked, instance := Checked(s, f, r), f.token.instance;
    if AllCompleted(checked, instance) && instance in checked.instances {
      var done := checked.(instances := checked.instances[instance := InstanceCompleted]);
      assert forall id :: InFlight(done, id) <==> InFlight(s.Land(f), id);
      assert Parents(done, instance) == Parents(checked, instance);
      SingleResumed(done, Parents(done, instance));
    }
  }

  lemma SingleCallback(s: State, e: Event)
    requires e.Callback? && Enabled(s, e) && WellFormed(s) && Single(s)
    ensures Single(Apply(s, e)) <==> !Doubles(s, e)
  {
    if Accepts(s, e.token, e.awaited) {
      var t := s.tokens[e.token].ClearWaitingFor();
      ResolvedShorter(e.next, e.flows);
      assert forall k :: InFlight(s.Store(e.token, t), k) <==> InFlight(s, k);
      SingleMove(s.Store(e.token, t), e.token, t, Resolved(e.next, e.flows), e.newIds);
    }
  }

  lemma SingleFlowCallback(s: State, e: Event)
    requires e.FlowCallback? && Single(s)
    ensures Single(Apply(s, e)) <==> !Doubles(s, e)
  {
    if Accepts(s, e.token, e.awaited) && Resolved(e.next, e.flows) != [] {
      SingleStoreLaunch(s, e.token, s.tokens[e.token].ClearWaitingFor().MoveTo(Resolved(e.next, e.flows)[0]));
    }
  }

  lemma SingleTimer(s: State, e: Event)
    requires e.BoundaryTimer? && Enabled(s, e) && WellFormed(s) && Single(s)
    ensures Single(Apply(s, e)) <==> !Doubles(s, e)
  {
    if e.token in s.tokens {
      SingleStoreLaunch(s, e.token, Interrupted(s.tokens[e.token], e.element));
      SingleStoreLaunch(s, e.newId, NewToken(s.tokens[e.token].instance, e.element));
    }
  }

  /** A step makes a token execute twice exactly when it starts an execution of one that has one in progress. */
  lemma StepSingleExact(s: State, e: Event)
    requires Enabled(s, e) && WellFormed(s) && Single(s)
    ensures Single(Apply(s, e)) <==> !Doubles(s, e)
  {
    match e
    case Start(instance, id, element) =>
      SingleStoreLaunch(s.(instances := s.instances[instance := InstanceActive]), id, NewToken(instance, element));
    case Execute(_, _, _, _) => SingleExecute(s, e);
    case FollowFlow(f, target) =>
      SingleLand(s, f);
      SingleStoreLaunch(s.Land(f), f.id, f.token.MoveTo(target));
    case Callback(_, _, _, _, _) => SingleCallback(s, e);
    case FlowCallback(_, _, _, _) => SingleFlowCallback(s, e);
    case MessageCallback(id, name) =>
      if id in s.tokens {
        SingleLaunch(s, id, s.tokens[id].ClearWaitingFor());
      }
    case BoundaryTimer(_, _, _, _) => SingleTimer(s, e);
  }

  // ----- Runs -----

  ghost predicate NeverDoubles(s: State, run: seq<Event>)
    requires IsRun(s, run)
    decreases |run|
  {
    run != [] ==> !Doubles(s, run[0]) && NeverDoubles(Apply(s, run[0]), run[1..])
  }

  ghost predicate SingleThroughout(s: State, run: seq<Event>)
    requires IsRun(s, run)
  {
    forall k :: 0 <= k <= |run| ==> Single(AfterFirst(s, run, k))
  }

  lemma SingleThroughoutStep(s: State, run: seq<Event>)
    requires IsRun(s, run) && run != [] && Single(s)
    ensures SingleThroughout(s, run) <==> SingleThroughout(Apply(s, run[0]), run[1..])
  {
    var z := Apply(s, run[0]);
    forall k | 0 < k <= |run|
      ensures AfterFirst(s, run, k) == AfterFirst(z, run[1..], k - 1)
    {
      AfterFirstStep(s, run, k);
    }
    assert forall k :: 0 <= k <= |run[1..]| ==> AfterFirst(z, run[1..], k) == AfterFirst(s, run, k + 1);
  }

  lemma {:induction false} RunSingleExact(s: State, run: seq<Event>)
    requires IsRun(s, run) && WellFormed(s) && Single(s)
    ensures SingleThroughout(s, run) <==> NeverDoubles(s, run)
    decreases |run|
  {
    if run != [] {
      var z := Apply(s, run[0]);
      SingleThroughoutStep(s, run);
      StepSingleExact(s, run[0]);
      StepWellFormed(s, run[0]);
      if Single(z) {
        RunSingleExact(z, run[1..]);
      } else {
        assert !Single(AfterFirst(z, run[1..], 0));
      }
    }
  }

  /** Over a run from the empty store, no token ever executes twice at a time if and only if no step starts an
      execution of a token that has one in progress. */
  lemma SingleRunsExact(run: seq<Event>)
    requires IsRun(EMPTY, run)
    ensures SingleThroughout(EMPTY, run) <==> NeverDoubles(EMPTY, run)
  {
    RunSingleExact(EMPTY, run);
  }

  // ----- How it happens -----

  /** A waiting token is interrupted while the callback for what it waits for is under way. It executes once, at the
      boundary event, only when that was a job; any other wait is still there and starts a second execution. */
  lemma InterruptedThenCalledBack(s: State, id: Id, awaited: string, element: Id, newId: Id, flow: string, target: Id)
    requires WellFormed(s) && Single(s) && Accepts(s, id, awaited) && !InFlight(s, id) && newId !in s.tokens
    ensures var timer := BoundaryTimer(id, element, true, newId);
      var call := Callback(id, awaited, [flow], map[flow := target], [newId]);
      && Enabled(s, timer) && Enabled(Apply(s, timer), call)
      && (Single(Apply(Apply(s, timer), call)) <==> "job:" <= awaited)
  {
    var timer := BoundaryTimer(id, element, true, newId);
    var call := Callback(id, awaited, [flow], map[flow := target], [newId]);
    InterruptedFlies(s, id, awaited, element, newId);
    OneFlow(flow, target);
    StepSingleExact(Apply(s, timer), call);
  }

  lemma OneFlow(flow: string, target: Id)
    ensures Resolved([flow], map[flow := target]) == [target]
  {
    assert [flow][..0] == [];
  }

  lemma InterruptedFlies(s: State, id: Id, awaited: string, element: Id, newId: Id)
    requires WellFormed(s) && Single(s) && Accepts(s, id, awaited) && !InFlight(s, id) && newId !in s.tokens
    ensures var timer := BoundaryTimer(id, element, true, newId);
      && Enabled(s, timer) && WellFormed(Apply(s, timer)) && Single(Apply(s, timer)) && InFlight(Apply(s, timer), id)
      && newId !in Apply(s, timer).tokens && (Accepts(Apply(s, timer), id, awaited) <==> !("job:" <= awaited))
  {
    var timer := BoundaryTimer(id, element, true, newId);
    var z := Apply(s, timer);
    StepSingleExact(s, timer);
    StepWellFormed(s, timer);
    assert Flight(id, z.tokens[id]) in z.flights;
  }

  lemma StartThenWait(s: State, start: Event, wait: Event)
    requires WellFormed(s) && Single(s) && start.Start? && Enabled(s, start)
    requires wait.Execute? && wait.flight == Flight(start.token, NewToken(start.instance, start.element))
    requires wait.result.ExecResult? && wait.result.waitingFor != "" && wait.result.next == [] && wait.newIds == []
    ensures Enabled(Apply(s, start), wait)
    ensures var w := Apply(Apply(s, start), wait);
      && WellFormed(w) && Single(w) && w.tokens.Keys == s.tokens.Keys + {start.token}
      && Accepts(w, start.token, wait.result.waitingFor) && !InFlight(w, start.token)
  {
    var z := Apply(s, start);
    StartFlies(s, start);
    assert WellFormed(Apply(z, wait)) && Single(Apply(z, wait)) by {
      StepWellFormed(z, wait);
      StepSingleExact(z, wait);
    }
    SingleLand(z, wait.flight);
    assert forall k :: InFlight(Apply(z, wait), k) <==> InFlight(z.Land(wait.flight), k);
  }

  lemma StartFlies(s: State, start: Event)
    requires WellFormed(s) && Single(s) && start.Start? && Enabled(s, start)
    ensures var z := Apply(s, start);
      && WellFormed(z) && Single(z) && z.tokens.Keys == s.tokens.Keys + {start.token}
      && Flight(start.token, NewToken(start.instance, start.element)) in z.flights
  {
    StepWellFormed(s, start);
    StepSingleExact(s, start);
  }

  /** So a double execution follows from any state: a new token waits, is interrupted, and then a callback sent before
      the interruption comes. */
  lemma DoubleExecutionFollows(s: State, start: Event, awaited: string, element: Id, newId: Id, flow: string,
      target: Id)
    returns (run: seq<Event>)
    requires WellFormed(s) && Single(s) && start.Start? && Enabled(s, start)
    requires awaited != "" && !("job:" <= awaited) && newId !in s.tokens && newId != start.token
    ensures IsRun(s, run) && |run| == 4 && !Single(After(s, run))
  {
    var f := Flight(start.token, NewToken(start.instance, start.element));
    var wait := Execute(f, ExecResult(Active, awaited, false, [], false), map[], []);
    StartThenWait(s, start, wait);
    var z := Apply(s, start);
    var w := Apply(z, wait);
    var timer := BoundaryTimer(start.token, element, true, newId);
    var call := Callback(start.token, awaited, [flow], map[flow := target], [newId]);
    InterruptedThenCalledBack(w, start.token, awaited, element, newId, flow, target);
    OneStep(Apply(w, timer), call, []);
    OneStep(w, timer, [call] + []);
    OneStep(z, wait, [timer] + ([call] + []));
    OneStep(s, start, [wait] + ([timer] + ([call] + [])));
    run := [start] + ([wait] + ([timer] + ([call] + [])));
  }

  /** In particular it is reachable from the empty store. */
  lemma DoubleExecutionHappens()
    ensures exists run :: IsRun(EMPTY, run) && !Single(After(EMPTY, run))
  {
    var awaited := "message:paid";
    assert awaited[0] == 'm';
    var start := Start("instance", "root", "catch");
    var run := DoubleExecutionFollows(EMPTY, start, awaited, "timeout", "new", "flow", "end");
  }
}
