/** When a completed instance has only completed tokens: over all runs, exactly, and why forks break it. */
module CompletionSafety {
  import opened TokenFlow
  import opened TokenInvariants

  // ----- Small changes of a quiet state -----

  lemma QuietStore(s: State, id: Id, t: Token)
    requires Quiet(s) && t.instance in s.instances && !IsFinished(s, t.instance)
    requires id in s.tokens ==> s.tokens[id].instance == t.instance
    ensures Quiet(s.Store(id, t))
  {
  }

  lemma QuietLaunch(s: State, id: Id, t: Token)
    requires Quiet(s) && id in s.tokens && s.tokens[id].instance == t.instance && !IsFinished(s, t.instance)
    ensures Quiet(s.Launch(id, t))
  {
  }

  lemma QuietLand(s: State, f: Flight)
    requires Quiet(s)
    ensures Quiet(s.Land(f))
  {
  }

  lemma {:induction false} QuietCloned(s: State, id: Id, t: Token, targets: seq<Id>, newIds: seq<Id>, n: nat)
    requires n <= |targets| <= |newIds| && Quiet(s) && t.instance in s.instances && !IsFinished(s, t.instance)
    requires Distinct(newIds) && forall i :: 0 <= i < |newIds| ==> newIds[i] !in s.tokens
    ensures var z := Cloned(s, id, t, targets, newIds, n);
      && Quiet(z) && z.instances == s.instances
      && (forall i :: n <= i < |newIds| ==> newIds[i] !in z.tokens)
  {
    if n > 0 {
      QuietCloned(s, id, t, targets, newIds, n - 1);
      var z := Cloned(s, id, t, targets, newIds, n - 1);
      var clone := t.Clone(id).MoveTo(targets[n - 1]);
      QuietStore(z, newIds[n - 1], clone);
      QuietLaunch(z.Store(newIds[n - 1], clone), newIds[n - 1], clone);
    }
  }

  lemma QuietMove(s: State, id: Id, t: Token, targets: seq<Id>, newIds: seq<Id>)
    requires |targets| <= |newIds| && Quiet(s) && t.instance in s.instances && !IsFinished(s, t.instance)
    requires id in s.tokens && s.tokens[id].instance == t.instance
    requires Distinct(newIds) && forall i :: 0 <= i < |newIds| ==> newIds[i] !in s.tokens
    ensures var z := Move(s, id, t, targets, newIds); Quiet(z) && z.instances == s.instances
  {
    if |targets| == 1 {
      var moved := t.MoveTo(targets[0]);
      QuietStore(s, id, moved);
      QuietLaunch(s.Store(id, moved), id, moved);
    } else if |targets| >= 2 {
      var done := t.SetState(Completed);
      QuietStore(s, id, done);
      QuietCloned(s.Store(id, done), id, done, targets, newIds, |targets|);
    }
  }

  /** Resuming parents keeps every token's instance, and adds executions of waiting tokens only. */
  lemma ResumeFacts(s: State, child: Id)
    ensures var z := Resume(s, child);
      && z.instances == s.instances && z.tokens.Keys == s.tokens.Keys
      && (forall id :: id in s.tokens ==> z.tokens[id].instance == s.tokens[id].instance)
      && (forall id :: id in s.tokens && s.tokens[id].IsCompleted() ==> z.tokens[id] == s.tokens[id])
      && (forall f :: f in z.flights ==> f in s.flights || WasWaiting(s, f))
  {
  }

  ghost predicate WasWaiting(s: State, f: Flight) {
    f.id in s.tokens && s.tokens[f.id].state == Waiting && f.token == s.tokens[f.id].ClearWaitingFor()
  }

  /** Completing an instance is always safe; nothing executes in completed instances afterwards
      if nothing executed in this one. */
  lemma CompletionKeeps(s: State, instance: Id)
    requires Quiet(s)
    ensures var z := CheckCompletion(s, instance);
      && WellFormed(z) && Safe(z)
      && (!(IsFinished(z, instance) && ExecutingIn(s, instance)) ==> Quiet(z))
  {
    WellCompletion(s, instance);
    SafeCompletion(s, instance);
    if AllCompleted(s, instance) && instance in s.instances && !ExecutingIn(s, instance) {
      NoneLeft(s, instance);
    }
  }

  lemma NoneLeft(s: State, instance: Id)
    requires Quiet(s) && AllCompleted(s, instance) && instance in s.instances && !ExecutingIn(s, instance)
    ensures NoneExecuting(CheckCompletion(s, instance))
  {
    var done := s.(instances := s.instances[instance := InstanceCompleted]);
    ResumeFacts(done, instance);
    var z := Resume(done, instance);
    forall f | f in z.flights
      ensures !IsFinished(z, f.token.instance)
    {
      if f !in s.flights {
        assert WasWaiting(done, f);
      }
    }
  }

  /** Every step from a quiet state is safe, and the state stays quiet unless the step completes its instance early. */
  lemma StepKeeps(s: State, e: Event)
    requires Enabled(s, e) && Quiet(s)
    ensures Safe(Apply(s, e)) && WellFormed(Apply(s, e))
    ensures !CompletesEarly(s, e) ==> Quiet(Apply(s, e))
  {
    match e
    case Start(instance, id, element) =>
      var t := NewToken(instance, element);
      var z := s.(instances := s.instances[instance := InstanceActive]);
      assert Quiet(z);
      QuietStore(z, id, t);
      QuietLaunch(z.Store(id, t), id, t);
    case Execute(f, r, flows, newIds) => ExecuteKeeps(s, f, r, flows, newIds);
    case FollowFlow(f, target) =>
      var t := f.token.MoveTo(target);
      QuietLand(s, f);
      QuietStore(s.Land(f), f.id, t);
      QuietLaunch(s.Land(f).Store(f.id, t), f.id, t);
    case Callback(_, _, _, _, _) => CallbackKeeps(s, e);
    case FlowCallback(_, _, _, _) => FlowCallbackKeeps(s, e);
    case MessageCallback(id, name) =>
      if id in s.tokens && s.tokens[id].state == Waiting {
        QuietLaunch(s, id, s.tokens[id].ClearWaitingFor());
      }
    case BoundaryTimer(_, _, _, _) => TimerKeeps(s, e);
  }

  lemma FlowCallbackKeeps(s: State, e: Event)
    requires e.FlowCallback? && Quiet(s)
    ensures Quiet(Apply(s, e))
  {
    if Accepts(s, e.token, e.awaited) {
      var t, targets := s.tokens[e.token].ClearWaitingFor(), Resolved(e.next, e.flows);
      QuietStore(s, e.token, t);
      if targets != [] {
        QuietStore(s, e.token, t.MoveTo(targets[0]));
        QuietLaunch(s.Store(e.token, t.MoveTo(targets[0])), e.token, t.MoveTo(targets[0]));
      }
    }
  }

  lemma TimerKeeps(s: State, e: Event)
    requires e.BoundaryTimer? && Enabled(s, e) && Quiet(s)
    ensures Quiet(Apply(s, e))
  {
    if e.token in s.tokens && !s.tokens[e.token].IsCompleted() {
      var parent := s.tokens[e.token];
      var target := if e.interrupting then e.token else e.newId;
      var t := if e.interrupting then Interrupted(parent, e.element) else NewToken(parent.instance, e.element);
      QuietStore(s, target, t);
      QuietLaunch(s.Store(target, t), target, t);
    }
  }

  lemma CallbackKeeps(s: State, e: Event)
    requires e.Callback? && Enabled(s, e) && Quiet(s)
    ensures Quiet(Apply(s, e))
  {
    if Accepts(s, e.token, e.awaited) {
      var t := s.tokens[e.token].ClearWaitingFor();
      QuietStore(s, e.token, t);
      QuietStore(s, e.token, t.SetState(Completed));
      ResolvedShorter(e.next, e.flows);
      QuietMove(s.Store(e.token, t), e.token, t, Resolved(e.next, e.flows), e.newIds);
    }
  }

  lemma ExecuteKeeps(s: State, f: Flight, r: ExecResult, flows: map<string, Id>, newIds: seq<Id>)
    requires Enabled(s, Execute(f, r, flows, newIds)) && Quiet(s)
    ensures var e := Execute(f, r, flows, newIds);
      Safe(Apply(s, e)) && WellFormed(Apply(s, e)) && (!CompletesEarly(s, e) ==> Quiet(Apply(s, e)))
  {
    var landed := s.Land(f);
    QuietLand(s, f);
    if r.ExecError? {
      QuietStore(landed, f.id, f.token.SetState(Failed));
    } else {
      var t := f.token.SetState(r.state);
      if r.waitingFor != "" {
        QuietStore(landed, f.id, t.SetWaitingFor(r.waitingFor));
      } else if r.completed {
        QuietStore(landed, f.id, t.SetState(Completed));
        CompletionKeeps(landed.Store(f.id, t.SetState(Completed)), t.instance);
      } else if r.next != [] {
        ResolvedShorter(r.next, flows);
        QuietMove(landed, f.id, t, Resolved(r.next, flows), newIds);
      } else {
        QuietStore(landed, f.id, t);
      }
    }
  }

  /** An execution left over in a completed instance can make it unsafe at once, by waiting. */
  lemma LeftoverWaits(s: State, g: Flight)
    requires WellFormed(s) && g in s.flights && IsFinished(s, g.token.instance)
    ensures var e := Execute(g, ExecResult(g.token.state, "job", false, [], false), map[], []);
      Enabled(s, e) && !Safe(Apply(s, e))
  {
    var e := Execute(g, ExecResult(g.token.state, "job", false, [], false), map[], []);
    var z := Apply(s, e);
    assert g.id in z.tokens && z.tokens[g.id].state == Waiting && IsFinished(z, z.tokens[g.id].instance);
  }

  /** A safe state has only safe successors exactly when nothing executes in a completed instance. */
  lemma SafeSuccessorsExact(s: State)
    requires WellFormed(s)
    ensures Safe(s) && (forall e :: Enabled(s, e) ==> Safe(Apply(s, e))) <==> Quiet(s)
  {
    if Quiet(s) {
      forall e | Enabled(s, e)
        ensures Safe(Apply(s, e))
      {
        StepKeeps(s, e);
      }
    } else if Safe(s) {
      var g :| g in s.flights && IsFinished(s, g.token.instance);
      LeftoverWaits(s, g);
      assert exists e :: Enabled(s, e) && !Safe(Apply(s, e));
    }
  }

  /** Completing early means what it says: the step finishes an unfinished instance while another execution of it is
      in progress. */
  lemma CompletesEarlyExact(s: State, e: Event)
    requires Enabled(s, e) && WellFormed(s) && e.Execute?
    ensures var instance := e.flight.token.instance;
      CompletesEarly(s, e)
      <==> !IsFinished(s, instance) && IsFinished(Apply(s, e), instance) && ExecutingIn(s.Land(e.flight), instance)
  {
    if !IsFinished(s, e.flight.token.instance) && IsFinished(Apply(s, e), e.flight.token.instance) {
      FinishedOnlyByCheck(s, e);
    }
  }

  /** The execution that remains after an early completion. */
  lemma LeftOver(s: State, e: Event) returns (g: Flight)
    requires Enabled(s, e) && WellFormed(s) && CompletesEarly(s, e)
    ensures g in Apply(s, e).flights && IsFinished(Apply(s, e), g.token.instance)
  {
    g :| g in s.Land(e.flight).flights && g.token.instance == e.flight.token.instance;
    CompletesEarlyExact(s, e);
  }

  /** After a step that completes its instance early, one more step can make the state unsafe. */
  lemma EarlyCompletionBreaks(s: State, e: Event) returns (next: Event)
    requires Enabled(s, e) && WellFormed(s) && CompletesEarly(s, e)
    ensures Enabled(Apply(s, e), next) && !Safe(Apply(Apply(s, e), next))
  {
    StepWellFormed(s, e);
    var g := LeftOver(s, e);
    LeftoverWaits(Apply(s, e), g);
    next := Execute(g, ExecResult(g.token.state, "job", false, [], false), map[], []);
  }

  // ----- Whole runs -----

  /** No step of the run completes its instance while another execution of it is in progress. */
  ghost predicate NeverEarly(s: State, run: seq<Event>)
    requires IsRun(s, run)
    decreases |run|
  {
    run != [] ==> !CompletesEarly(s, run[0]) && NeverEarly(Apply(s, run[0]), run[1..])
  }

  ghost predicate QuietThroughout(s: State, run: seq<Event>)
    requires IsRun(s, run)
  {
    forall k :: 0 <= k <= |run| ==> Quiet(AfterFirst(s, run, k))
  }

  lemma QuietThroughoutStep(s: State, run: seq<Event>)
    requires IsRun(s, run) && run != [] && Quiet(s)
    ensures QuietThroughout(s, run) <==> QuietThroughout(Apply(s, run[0]), run[1..])
  {
    var z := Apply(s, run[0]);
    forall k | 0 < k <= |run|
      ensures AfterFirst(s, run, k) == AfterFirst(z, run[1..], k - 1)
    {
      AfterFirstStep(s, run, k);
    }
    assert forall k :: 0 <= k <= |run[1..]| ==> AfterFirst(z, run[1..], k) == AfterFirst(s, run, k + 1);
  }

  lemma {:induction false} RunQuietExact(s: State, run: seq<Event>)
    requires IsRun(s, run) && Quiet(s)
    ensures NeverEarly(s, run) <==> QuietThroughout(s, run)
    decreases |run|
  {
    if run != [] {
      var z := Apply(s, run[0]);
      QuietThroughoutStep(s, run);
      StepKeeps(s, run[0]);
      if CompletesEarly(s, run[0]) {
        var g := LeftOver(s, run[0]);
        assert !Quiet(AfterFirst(z, run[1..], 0));
      } else {
        RunQuietExact(z, run[1..]);
      }
    }
  }

  /** When a run from the empty store is safe for good: after every step all completed instances have only completed
      tokens and no execution left, if and only if no step completes its instance under another execution of it. */
  lemma QuietRunsExact(run: seq<Event>)
    requires IsRun(EMPTY, run)
    ensures NeverEarly(EMPTY, run) <==> QuietThroughout(EMPTY, run)
  {
    RunQuietExact(EMPTY, run);
  }

  // ----- A condition on the steps themselves -----

  ghost predicate InFlight(s: State, id: Id) { exists f :: f in s.flights && f.id == id }

  /** Every token executes at most once at a time, and only while it is not completed. */
  ghost predicate Tidy(s: State) {
    && Quiet(s)
    && (forall f :: f in s.flights ==> s.flights[f] == 1 && !f.token.IsCompleted() && !s.tokens[f.id].IsCompleted())
    && (forall f, g :: f in s.flights && g in s.flights && f.id == g.id ==> f == g)
  }

  /** A step that forks to fewer than two targets, moves on only tokens that are not completed, and starts no second
      execution of a token. */
  ghost predicate Sequential(s: State, e: Event)
    requires Enabled(s, e)
  {
    match e
    case Start(_, _, _) => true
    case Execute(f, r, flows, _) =>
      if r.ExecError? || r.waitingFor != "" then true
      else if r.completed then forall id :: id in Parents(s, f.token.instance) ==> !InFlight(s, id)
      else |Resolved(r.next, flows)| <= 1 && r.state in {Active, Waiting}
    case FollowFlow(_, _) => true
    case Callback(id, _, next, flows, _) => !InFlight(s, id) && |Resolved(next, flows)| <= 1
    case FlowCallback(id, _, _, _) => !InFlight(s, id)
    case MessageCallback(id, _) => !InFlight(s, id)
    case BoundaryTimer(id, _, interrupting, _) => interrupting ==> !InFlight(s, id)
  }

  /** Sequential steps cannot complete an instance early. */
  lemma SequentialNeverEarly(s: State, e: Event)
    requires Enabled(s, e) && Tidy(s) && Sequential(s, e)
    ensures !CompletesEarly(s, e)
  {
    if e.Execute? && e.result.ExecResult? {
      OthersBlockCompletion(s, e.flight, e.flight.token.SetState(e.result.state).SetState(Completed));
    }
  }

  /** While another token of the instance executes, its stored token is not completed. */
  lemma OthersBlockCompletion(s: State, f: Flight, t: Token)
    requires Tidy(s) && f in s.flights
    ensures ExecutingIn(s.Land(f), f.token.instance) ==> !AllCompleted(s.Land(f).Store(f.id, t), f.token.instance)
  {
    if ExecutingIn(s.Land(f), f.token.instance) {
      var g :| g in s.Land(f).flights && g.token.instance == f.token.instance;
      assert g.id != f.id && !s.tokens[g.id].IsCompleted();
      assert s.Land(f).Store(f.id, t).tokens[g.id] == s.tokens[g.id];
    }
  }

  /** Only the completion check finishes an instance. */
  lemma FinishedOnlyByCheck(s: State, e: Event)
    requires Enabled(s, e) && WellFormed(s) && e.Execute?
    requires !IsFinished(s, e.flight.token.instance) && IsFinished(Apply(s, e), e.flight.token.instance)
    ensures e.result.ExecResult? && e.result.waitingFor == "" && e.result.completed
    ensures AllCompleted(Checked(s, e.flight, e.result), e.flight.token.instance)
  {
    var r := e.result;
    if r.ExecResult? && r.waitingFor == "" && !r.completed && r.next != [] {
      ResolvedShorter(r.next, e.flows);
      var t, targets := e.flight.token.SetState(r.state), Resolved(r.next, e.flows);
      MoveKeepsInstances(s.Land(e.flight), e.flight.id, t, targets, e.newIds);
    }
  }

  lemma MoveKeepsInstances(s: State, id: Id, t: Token, targets: seq<Id>, newIds: seq<Id>)
    requires |targets| <= |newIds|
    ensures Move(s, id, t, targets, newIds).instances == s.instances
  {
    if |targets| >= 2 {
      ClonedKeepsInstances(s.Store(id, t.SetState(Completed)), id, t.SetState(Completed), targets, newIds, |targets|);
    }
  }

  lemma {:induction false} ClonedKeepsInstances(s: State, id: Id, t: Token, targets: seq<Id>, newIds: seq<Id>, n: nat)
    requires n <= |targets| <= |newIds|
    ensures Cloned(s, id, t, targets, newIds, n).instances == s.instances
  {
    if n > 0 {
      ClonedKeepsInstances(s, id, t, targets, newIds, n - 1);
    }
  }

  // ----- Sequential runs are safe -----

  lemma TidyLand(s: State, f: Flight)
    requires Tidy(s) && f in s.flights
    ensures Tidy(s.Land(f)) && !InFlight(s.Land(f), f.id)
  {
    QuietLand(s, f);
  }

  /** Saving a token that is not executing, in an instance that is not completed. */
  lemma TidyStore(s: State, id: Id, t: Token)
    requires Tidy(s) && !InFlight(s, id) && t.instance in s.instances && !IsFinished(s, t.instance)
    requires id in s.tokens ==> s.tokens[id].instance == t.instance
    ensures Tidy(s.Store(id, t)) && !InFlight(s.Store(id, t), id)
  {
    QuietStore(s, id, t);
  }

  lemma TidyLaunch(s: State, id: Id, t: Token)
    requires Tidy(s) && !InFlight(s, id) && id in s.tokens
    requires s.tokens[id].instance == t.instance && !IsFinished(s, t.instance)
    requires !t.IsCompleted() && !s.tokens[id].IsCompleted()
    ensures Tidy(s.Launch(id, t))
  {
    QuietLaunch(s, id, t);
    assert Flight(id, t) !in s.flights;
  }

  lemma TidyLaunchStored(s: State, id: Id, t: Token)
    requires Tidy(s) && !InFlight(s, id) && t.instance in s.instances && !IsFinished(s, t.instance)
    requires id in s.tokens ==> s.tokens[id].instance == t.instance
    requires !t.IsCompleted()
    ensures Tidy(s.Store(id, t).Launch(id, t))
  {
    TidyStore(s, id, t);
    TidyLaunch(s.Store(id, t), id, t);
  }

  /** Resuming some tokens leaves the others alone. */
  lemma ResumedFrame(s: State, ids: set<Id>, id: Id)
    requires ids <= s.tokens.Keys && id in s.tokens && id !in ids
    ensures Resumed(s, ids).tokens[id] == s.tokens[id] && Resumed(s, ids).instances == s.instances
    ensures !InFlight(s, id) ==> !InFlight(Resumed(s, ids), id)
  {
  }

  lemma TidyResumeOne(s: State, ids: set<Id>, id: Id)
    requires ids <= s.tokens.Keys && Tidy(Resumed(s, ids)) && id in s.tokens && id !in ids
    requires s.tokens[id].state == Waiting && !InFlight(s, id)
    ensures Tidy(Resumed(s, ids + {id}))
  {
    ResumedFrame(s, ids, id);
    TidyLaunchStored(Resumed(s, ids), id, s.tokens[id].ClearWaitingFor());
    ResumedOneMore(s, ids, id);
  }

  /** Waiting tokens that are not executing can be resumed one after the other. */
  lemma {:induction false} TidyResumed(s: State, ids: set<Id>)
    requires Tidy(s) && ids <= s.tokens.Keys
    requires forall id :: id in ids ==> s.tokens[id].state == Waiting && !InFlight(s, id)
    ensures Tidy(Resumed(s, ids))
    decreases |ids|
  {
    if ids == {} {
      NoneResumed(s, ids);
    } else {
      var id :| id in ids;
      TidyResumed(s, ids - {id});
      TidyResumeOne(s, ids - {id}, id);
      assert ids - {id} + {id} == ids;
    }
  }

  lemma TidyComplete(s: State, instance: Id)
    requires Tidy(s) && !ExecutingIn(s, instance) && forall id :: id in Parents(s, instance) ==> !InFlight(s, id)
    ensures Tidy(CheckCompletion(s, instance))
  {
    if AllCompleted(s, instance) && instance in s.instances {
      var done := s.(instances := s.instances[instance := InstanceCompleted]);
      assert Tidy(done);
      assert forall id :: InFlight(done, id) == InFlight(s, id);
      TidyResumed(done, Parents(done, instance));
    }
  }

  /** The end of an execution: its token is saved, or saved and executed again. */
  lemma TidyLandStored(s: State, f: Flight, t: Token)
    requires Tidy(s) && f in s.flights && t.instance == f.token.instance
    ensures Tidy(s.Land(f).Store(f.id, t))
    ensures !t.IsCompleted() ==> Tidy(s.Land(f).Store(f.id, t).Launch(f.id, t))
  {
    TidyLand(s, f);
    TidyStore(s.Land(f), f.id, t);
    if !t.IsCompleted() {
      TidyLaunchStored(s.Land(f), f.id, t);
    }
  }

  lemma TidyExecute(s: State, f: Flight, r: ExecResult, flows: map<string, Id>, newIds: seq<Id>)
    requires var e := Execute(f, r, flows, newIds); Enabled(s, e) && Tidy(s) && Sequential(s, e)
    ensures Tidy(ProcessResult(s, f, r, flows, newIds))
  {
    TidyLand(s, f);
    if r.ExecError? {
      TidyLandStored(s, f, f.token.SetState(Failed));
    } else if Moves(r) {
      ResolvedShorter(r.next, flows);
      TidyMove(s, f, f.token.SetState(r.state), Resolved(r.next, flows), newIds);
    } else if Completes(r) {
      TidyFinish(s, f, f.token.SetState(r.state).SetState(Completed));
    } else {
      TidyLandStored(s, f, f.token.SetState(r.state).SetWaitingFor(r.waitingFor));
      TidyLandStored(s, f, f.token.SetState(r.state));
    }
  }

  lemma TidyMove(s: State, f: Flight, t: Token, targets: seq<Id>, newIds: seq<Id>)
    requires Tidy(s) && f in s.flights && t.instance == f.token.instance && !t.IsCompleted()
    requires |targets| <= 1 && |targets| <= |newIds|
    ensures Tidy(Move(s.Land(f), f.id, t, targets, newIds))
  {
    TidyLand(s, f);
    if |targets| == 1 {
      TidyLandStored(s, f, t.MoveTo(targets[0]));
    }
  }

  lemma TidyFinish(s: State, f: Flight, t: Token)
    requires Tidy(s) && f in s.flights && t.instance == f.token.instance && t.IsCompleted()
    requires forall id :: id in Parents(s, f.token.instance) ==> !InFlight(s, id)
    ensures Tidy(CheckCompletion(s.Land(f).Store(f.id, t), t.instance))
  {
    TidyLand(s, f);
    TidyStore(s.Land(f), f.id, t);
    var z := s.Land(f).Store(f.id, t);
    OthersBlockCompletion(s, f, t);
    if AllCompleted(z, t.instance) {
      assert z.flights == s.Land(f).flights;
      forall id | id in Parents(z, t.instance)
        ensures !InFlight(z, id)
      {
        assert id in Parents(s, t.instance);
      }
      TidyComplete(z, t.instance);
    }
  }

  lemma TidyStart(s: State, instance: Id, id: Id, element: Id)
    requires Tidy(s) && Enabled(s, Start(instance, id, element))
    ensures Tidy(Apply(s, Start(instance, id, element)))
  {
    var z := s.(instances := s.instances[instance := InstanceActive]);
    assert Tidy(z);
    TidyLaunchStored(z, id, NewToken(instance, element));
  }

  lemma TidyMessage(s: State, id: Id, name: string)
    requires Tidy(s) && !InFlight(s, id)
    ensures Tidy(Apply(s, MessageCallback(id, name)))
  {
    if id in s.tokens && s.tokens[id].state == Waiting {
      TidyLaunch(s, id, s.tokens[id].ClearWaitingFor());
    }
  }

  lemma TidyCallback(s: State, e: Event)
    requires e.Callback? && Enabled(s, e) && Tidy(s) && Sequential(s, e)
    ensures Tidy(Apply(s, e))
  {
    if Accepts(s, e.token, e.awaited) {
      var t, targets := s.tokens[e.token].ClearWaitingFor(), Resolved(e.next, e.flows);
      ResolvedShorter(e.next, e.flows);
      TidyStore(s, e.token, t.SetState(Completed));
      TidyStore(s, e.token, t);
      if |targets| == 1 {
        TidyLaunchStored(s.Store(e.token, t), e.token, t.MoveTo(targets[0]));
      }
    }
  }

  lemma TidyFlowCallback(s: State, e: Event)
    requires e.FlowCallback? && Tidy(s) && Sequential(s, e)
    ensures Tidy(Apply(s, e))
  {
    if Accepts(s, e.token, e.awaited) {
      var t, targets := s.tokens[e.token].ClearWaitingFor(), Resolved(e.next, e.flows);
      TidyStore(s, e.token, t);
      if targets != [] {
        TidyLaunchStored(s, e.token, t.MoveTo(targets[0]));
      }
    }
  }

  lemma TidyStep(s: State, e: Event)
    requires Enabled(s, e) && Tidy(s) && Sequential(s, e)
    ensures Tidy(Apply(s, e))
  {
    match e
    case Start(instance, id, element) => TidyStart(s, instance, id, element);
    case Execute(f, r, flows, newIds) => TidyExecute(s, f, r, flows, newIds);
    case FollowFlow(f, target) => TidyLandStored(s, f, f.token.MoveTo(target));
    case Callback(_, _, _, _, _) => TidyCallback(s, e);
    case FlowCallback(_, _, _, _) => TidyFlowCallback(s, e);
    case MessageCallback(id, name) => TidyMessage(s, id, name);
    case BoundaryTimer(id, element, interrupting, newId) => TidyTimer(s, id, element, interrupting, newId);
  }

  lemma TidyTimer(s: State, id: Id, element: Id, interrupting: bool, newId: Id)
    requires Tidy(s) && (interrupting ==> !InFlight(s, id)) && newId !in s.tokens
    ensures Tidy(Apply(s, BoundaryTimer(id, element, interrupting, newId)))
  {
    if id in s.tokens && !s.tokens[id].IsCompleted() {
      if interrupting {
        TidyLaunchStored(s, id, Interrupted(s.tokens[id], element));
      } else {
        TidyLaunchStored(s, newId, NewToken(s.tokens[id].instance, element));
      }
    }
  }

  ghost predicate AllSequential(s: State, run: seq<Event>)
    requires IsRun(s, run)
    decreases |run|
  {
    run != [] ==> Sequential(s, run[0]) && AllSequential(Apply(s, run[0]), run[1..])
  }

  lemma {:induction false} SequentialRunsTidy(s: State, run: seq<Event>)
    requires Tidy(s) && IsRun(s, run) && AllSequential(s, run)
    ensures Tidy(After(s, run)) && NeverEarly(s, run)
    decreases |run|
  {
    if run != [] {
      SequentialNeverEarly(s, run[0]);
      TidyStep(s, run[0]);
      SequentialRunsTidy(Apply(s, run[0]), run[1..]);
    }
  }

  /** Runs that fork nowhere and execute every token once at a time are safe throughout. */
  lemma SequentialRunsSafe(run: seq<Event>)
    requires IsRun(EMPTY, run) && AllSequential(EMPTY, run)
    ensures Safe(After(EMPTY, run)) && NeverEarly(EMPTY, run)
  {
    SequentialRunsTidy(EMPTY, run);
  }

  // ----- Forks -----

  function CloneFor(id: Id, t: Token, target: Id): Token { t.Clone(id).MoveTo(target) }

  /** After the first `n` clones: they stand at their targets, and nothing else in the store changed. */
  lemma {:induction false} ClonedTokens(s: State, id: Id, t: Token, targets: seq<Id>, newIds: seq<Id>, n: nat)
    requires n <= |targets| <= |newIds|
    requires Distinct(newIds) && forall i :: 0 <= i < |newIds| ==> newIds[i] !in s.tokens
    ensures var z := Cloned(s, id, t, targets, newIds, n);
      && (forall k :: k in s.tokens ==> k in z.tokens && z.tokens[k] == s.tokens[k])
      && (forall i :: 0 <= i < n ==> newIds[i] in z.tokens && z.tokens[newIds[i]] == CloneFor(id, t, targets[i]))
  {
    if n > 0 {
      ClonedTokens(s, id, t, targets, newIds, n - 1);
    }
  }

  lemma {:induction false} ClonedCount(s: State, id: Id, t: Token, targets: seq<Id>, newIds: seq<Id>, n: nat)
    requires n <= |targets| <= |newIds|
    requires Distinct(newIds) && forall i :: 0 <= i < |newIds| ==> newIds[i] !in s.tokens
    ensures var z := Cloned(s, id, t, targets, newIds, n);
      |z.tokens| == |s.tokens| + n && forall i :: n <= i < |newIds| ==> newIds[i] !in z.tokens
  {
    if n > 0 {
      ClonedCount(s, id, t, targets, newIds, n - 1);
      var z := Cloned(s, id, t, targets, newIds, n - 1);
      assert newIds[n - 1] !in z.tokens;
      assert |z.tokens[newIds[n - 1] := CloneFor(id, t, targets[n - 1])]| == |z.tokens| + 1;
    }
  }

  lemma {:induction false} ClonedFlights(s: State, id: Id, t: Token, targets: seq<Id>, newIds: seq<Id>, n: nat, i: nat)
    requires n <= |targets| <= |newIds|
    ensures var z := Cloned(s, id, t, targets, newIds, n);
      |z.flights| == |s.flights| + n && (i < n ==> Flight(newIds[i], CloneFor(id, t, targets[i])) in z.flights)
  {
    if n > 0 {
      ClonedFlights(s, id, t, targets, newIds, n - 1, i);
    }
  }

  ghost function ForkEvent(f: Flight, state: TokenState, next: seq<string>, flows: map<string, Id>,
      newIds: seq<Id>): Event {
    Execute(f, ExecResult(state, "", false, next, false), flows, newIds)
  }

  /** `id` names a new token at `target` in the instance, saved as COMPLETED and executing. */
  ghost predicate ForkedTo(s: State, z: State, id: Id, instance: Id, target: Id) {
    && id !in s.tokens && id in z.tokens
    && z.tokens[id].instance == instance && z.tokens[id].element == target && z.tokens[id].state == Completed
    && Flight(id, z.tokens[id]) in z.flights
  }

  /** The forking token as it is saved. */
  function Forked(f: Flight, state: TokenState): Token { f.token.SetState(state).SetState(Completed) }

  function Forking(s: State, f: Flight, state: TokenState): State { s.Land(f).Store(f.id, Forked(f, state)) }

  /** The state after the fork to the given targets. */
  function ForkedAll(s: State, f: Flight, state: TokenState, targets: seq<Id>, newIds: seq<Id>): State
    requires |targets| <= |newIds|
  {
    Cloned(Forking(s, f, state), f.id, Forked(f, state), targets, newIds, |targets|)
  }

  lemma ForkIsCloned(s: State, f: Flight, state: TokenState, next: seq<string>, flows: map<string, Id>, newIds: seq<Id>)
    requires Enabled(s, ForkEvent(f, state, next, flows, newIds)) && |Resolved(next, flows)| >= 2
    ensures |Resolved(next, flows)| <= |newIds|
    ensures Apply(s, ForkEvent(f, state, next, flows, newIds))
         == ForkedAll(s, f, state, Resolved(next, flows), newIds)
  {
    ResolvedShorter(next, flows);
  }

  lemma ForkTargets(s: State, f: Flight, state: TokenState, targets: seq<Id>, newIds: seq<Id>, i: nat)
    requires i < |targets| <= |newIds| && f.id in s.tokens
    requires Distinct(newIds) && forall i :: 0 <= i < |newIds| ==> newIds[i] !in s.tokens
    ensures ForkedTo(s, ForkedAll(s, f, state, targets, newIds), newIds[i], f.token.instance, targets[i])
  {
    ClonedTokens(Forking(s, f, state), f.id, Forked(f, state), targets, newIds, |targets|);
    ClonedFlights(Forking(s, f, state), f.id, Forked(f, state), targets, newIds, |targets|, i);
  }

  /** A fork to `n >= 2` resolved targets completes one token and adds exactly `n`, one at each target, in the same
      instance. The new tokens are saved as COMPLETED, although they are about to be executed. */
  lemma ForkAccounting(s: State, f: Flight, state: TokenState, next: seq<string>, flows: map<string, Id>,
      newIds: seq<Id>)
    requires Enabled(s, ForkEvent(f, state, next, flows, newIds)) && WellFormed(s) && |Resolved(next, flows)| >= 2
    ensures var z, targets := Apply(s, ForkEvent(f, state, next, flows, newIds)), Resolved(next, flows);
      && |targets| <= |newIds| && |z.tokens| == |s.tokens| + |targets| && |z.flights| == |s.flights| - 1 + |targets|
      && f.id in z.tokens && z.tokens[f.id].state == Completed
      && (forall i :: 0 <= i < |targets| ==> ForkedTo(s, z, newIds[i], f.token.instance, targets[i]))
      && (forall k :: k in s.tokens && k != f.id ==> k in z.tokens && z.tokens[k] == s.tokens[k])
  {
    var targets := Resolved(next, flows);
    ForkIsCloned(s, f, state, next, flows, newIds);
    ForkCounts(s, f, state, targets, newIds);
    ForkKeepsOthers(s, f, state, targets, newIds);
    forall i | 0 <= i < |targets|
      ensures ForkedTo(s, Apply(s, ForkEvent(f, state, next, flows, newIds)), newIds[i], f.token.instance, targets[i])
    {
      ForkTargets(s, f, state, targets, newIds, i);
    }
  }

  lemma ForkCounts(s: State, f: Flight, state: TokenState, targets: seq<Id>, newIds: seq<Id>)
    requires |targets| <= |newIds| && f.id in s.tokens && f in s.flights
    requires Distinct(newIds) && forall i :: 0 <= i < |newIds| ==> newIds[i] !in s.tokens
    ensures var z := ForkedAll(s, f, state, targets, newIds);
      |z.tokens| == |s.tokens| + |targets| && |z.flights| == |s.flights| - 1 + |targets|
  {
    var base := Forking(s, f, state);
    assert |base.tokens| == |s.tokens| by {
      assert base.tokens.Keys == s.tokens.Keys;
    }
    ClonedCount(base, f.id, Forked(f, state), targets, newIds, |targets|);
    ClonedFlights(base, f.id, Forked(f, state), targets, newIds, |targets|, 0);
  }

  lemma ForkKeepsOthers(s: State, f: Flight, state: TokenState, targets: seq<Id>, newIds: seq<Id>)
    requires |targets| <= |newIds| && f.id in s.tokens
    requires Distinct(newIds) && forall i :: 0 <= i < |newIds| ==> newIds[i] !in s.tokens
    ensures var z := ForkedAll(s, f, state, targets, newIds);
      && f.id in z.tokens && z.tokens[f.id].state == Completed
      && (forall k :: k in s.tokens && k != f.id ==> k in z.tokens && z.tokens[k] == s.tokens[k])
  {
    ClonedTokens(Forking(s, f, state), f.id, Forked(f, state), targets, newIds, |targets|);
  }

  /** Forks break completion safety: when the last live token of an instance forks to two or more targets, one of
      its clones can complete the instance while another still executes, and that one can then start to wait. */
  lemma ForkLeadsToUnsafe(s: State, f: Flight, state: TokenState, next: seq<string>, flows: map<string, Id>,
      newIds: seq<Id>)
    returns (run: seq<Event>)
    requires Enabled(s, ForkEvent(f, state, next, flows, newIds)) && Quiet(s) && |Resolved(next, flows)| >= 2
    requires LastLive(s, f)
    ensures |run| == 3 && run[0] == ForkEvent(f, state, next, flows, newIds)
    ensures IsRun(s, run) && !Safe(After(s, run))
  {
    var fork := ForkEvent(f, state, next, flows, newIds);
    var z := Apply(s, fork);
    CloneFinishesEarly(s, f, state, next, flows, newIds);
    var finish := FinishEvent(Flight(newIds[0], z.tokens[newIds[0]]));
    assert Quiet(z) by {
      StepKeeps(s, fork);
    }
    var wait := EarlyCompletionBreaks(z, finish);
    var last := Apply(z, finish);
    OneStep(last, wait, []);
    OneStep(z, finish, [wait] + []);
    OneStep(s, fork, [finish] + ([wait] + []));
    run := [fork] + ([finish] + ([wait] + []));
  }

  lemma OneStep(s: State, e: Event, rest: seq<Event>)
    requires Enabled(s, e) && IsRun(Apply(s, e), rest)
    ensures IsRun(s, [e] + rest) && After(s, [e] + rest) == After(Apply(s, e), rest)
  {
  }

  ghost function FinishEvent(g: Flight): Event {
    Execute(g, ExecResult(Completed, "", true, [], false), map[], [])
  }

  /** Right after the fork, finishing the first clone completes the instance under the other clones. */
  lemma CloneFinishesEarly(s: State, f: Flight, state: TokenState, next: seq<string>, flows: map<string, Id>,
      newIds: seq<Id>)
    requires Enabled(s, ForkEvent(f, state, next, flows, newIds)) && Quiet(s) && |Resolved(next, flows)| >= 2
    requires LastLive(s, f)
    ensures var z := Apply(s, ForkEvent(f, state, next, flows, newIds));
      && newIds[0] in z.tokens
      && var e := FinishEvent(Flight(newIds[0], z.tokens[newIds[0]])); Enabled(z, e) && CompletesEarly(z, e)
  {
    var z := Apply(s, ForkEvent(f, state, next, flows, newIds));
    TwoClones(s, f, state, next, flows, newIds);
    LastForkCompletes(s, f, state, next, flows, newIds);
    var g, h := Flight(newIds[0], z.tokens[newIds[0]]), Flight(newIds[1], z.tokens[newIds[1]]);
    FinishIsEarly(z, g, h);
  }

  lemma TwoClones(s: State, f: Flight, state: TokenState, next: seq<string>, flows: map<string, Id>, newIds: seq<Id>)
    requires Enabled(s, ForkEvent(f, state, next, flows, newIds)) && WellFormed(s) && |Resolved(next, flows)| >= 2
    ensures var z := Apply(s, ForkEvent(f, state, next, flows, newIds));
      && |newIds| >= 2 && newIds[0] != newIds[1] && newIds[0] in z.tokens && newIds[1] in z.tokens
      && z.tokens[newIds[0]].instance == z.tokens[newIds[1]].instance == f.token.instance
      && Flight(newIds[0], z.tokens[newIds[0]]) in z.flights && Flight(newIds[1], z.tokens[newIds[1]]) in z.flights
  {
    var z, targets := Apply(s, ForkEvent(f, state, next, flows, newIds)), Resolved(next, flows);
    ForkAccounting(s, f, state, next, flows, newIds);
    assert ForkedTo(s, z, newIds[0], f.token.instance, targets[0]);
    assert ForkedTo(s, z, newIds[1], f.token.instance, targets[1]);
  }

  /** No token of the instance is live but the executing one. */
  ghost predicate LastLive(s: State, f: Flight) {
    forall id ::
      id in s.tokens && s.tokens[id].instance == f.token.instance && id != f.id ==> s.tokens[id].IsCompleted()
  }

  lemma LastForkCompletes(s: State, f: Flight, state: TokenState, next: seq<string>, flows: map<string, Id>,
      newIds: seq<Id>)
    requires Enabled(s, ForkEvent(f, state, next, flows, newIds)) && Quiet(s) && |Resolved(next, flows)| >= 2
    requires LastLive(s, f)
    ensures var z := Apply(s, ForkEvent(f, state, next, flows, newIds));
      AllCompleted(z, f.token.instance) && f.token.instance in z.instances && !IsFinished(z, f.token.instance)
  {
    ForkAccounting(s, f, state, next, flows, newIds);
    ForkOnlyAdds(s, f, state, next, flows, newIds);
  }

  lemma FinishIsEarly(s: State, g: Flight, h: Flight)
    requires g in s.flights && h in s.flights && g.id != h.id && g.token.instance == h.token.instance
    requires AllCompleted(s, g.token.instance) && g.token.instance in s.instances && !IsFinished(s, g.token.instance)
    ensures Enabled(s, FinishEvent(g)) && CompletesEarly(s, FinishEvent(g))
  {
    assert h in s.Land(g).flights;
  }

  /** The fork adds no token besides the clones. */
  lemma ForkOnlyAdds(s: State, f: Flight, state: TokenState, next: seq<string>, flows: map<string, Id>, newIds: seq<Id>)
    requires Enabled(s, ForkEvent(f, state, next, flows, newIds)) && WellFormed(s) && |Resolved(next, flows)| >= 2
    ensures var z := Apply(s, ForkEvent(f, state, next, flows, newIds));
      && z.instances == s.instances
      && forall k :: k in z.tokens && k !in s.tokens ==> z.tokens[k].state == Completed
  {
    ForkIsCloned(s, f, state, next, flows, newIds);
    var targets := Resolved(next, flows);
    ClonedOnlyAdds(Forking(s, f, state), f.id, Forked(f, state), targets, newIds, |targets|);
  }

  lemma {:induction false} ClonedOnlyAdds(s: State, id: Id, t: Token, targets: seq<Id>, newIds: seq<Id>, n: nat)
    requires n <= |targets| <= |newIds| && t.state == Completed
    ensures var z := Cloned(s, id, t, targets, newIds, n);
      && z.instances == s.instances
      && forall k :: k in z.tokens && k !in s.tokens ==> z.tokens[k].state == Completed
  {
    if n > 0 {
      ClonedOnlyAdds(s, id, t, targets, newIds, n - 1);
    }
  }

  /** So the property fails in a reachable state: one instance, one fork to two elements, three more steps. */
  lemma CompletionSafetyFails()
    ensures exists run :: IsRun(EMPTY, run) && !Safe(After(EMPTY, run))
  {
    var start := Start("instance", "root", "gateway");
    var s := Apply(EMPTY, start);
    StepKeeps(EMPTY, start);
    var f := Flight("root", NewToken("instance", "gateway"));
    var flows := map["left" := "a", "right" := "b"];
    var next, newIds := ["left", "right"], ["first", "second"];
    assert next[..1] == ["left"] && next[..1][..0] == [];
    assert Resolved(["left"], flows) == ["a"];
    assert Resolved(next, flows) == ["a", "b"];
    var rest := ForkLeadsToUnsafe(s, f, Active, next, flows, newIds);
    OneStep(EMPTY, start, rest);
  }
}
