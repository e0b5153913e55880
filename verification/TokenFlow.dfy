/** Tokens moving through process instances, as a state machine. The store and the executions in progress form the
    state; every step is one read-modify-save of the source taken as atomic. */
module TokenFlow {
  type Id = string

  datatype TokenState = Active | Completed | Canceled | Failed | Waiting

  datatype Token = Token(instance: Id, element: Id, previous: Id, parent: Id, state: TokenState, waitingFor: string) {
    function MoveTo(target: Id): Token { this.(previous := element, element := target) }

    function SetState(s: TokenState): Token { this.(state := s) }

    function SetWaitingFor(what: string): Token { this.(waitingFor := what, state := Waiting) }

    function ClearWaitingFor(): Token {
      this.(waitingFor := "", state := if state == Waiting then Active else state)
    }

    /** A copy for parallel execution: the state is copied too. */
    function Clone(id: Id): Token { Token(instance, element, previous, id, state, "") }

    predicate IsCompleted() { state in {Completed, Canceled, Failed} }

    predicate Awaits(what: string) { state == Waiting && waitingFor == what }
  }

  function NewToken(instance: Id, element: Id): Token { Token(instance, element, "", "", Active, "") }

  datatype InstanceState = InstanceActive | InstanceCompleted

  /** An `ExecuteToken` call in progress, with the token it holds in memory. */
  datatype Flight = Flight(id: Id, token: Token)

  datatype State = State(tokens: map<Id, Token>, instances: map<Id, InstanceState>, flights: multiset<Flight>) {
    function Store(id: Id, t: Token): State { this.(tokens := tokens[id := t]) }

    function Launch(id: Id, t: Token): State { this.(flights := flights + multiset{Flight(id, t)}) }

    function Land(f: Flight): State { this.(flights := flights - multiset{f}) }
  }

  /** What an element executor returns, and the state in which it leaves the token (a join gateway marks it
      COMPLETED before asking to move on). */
  datatype ExecResult =
    | ExecError
    | ExecResult(state: TokenState, waitingFor: string, completed: bool, next: seq<string>, updated: bool)

  /** `Callback` is how jobs and messages reach a waiting token, `FlowCallback` how event timers do; both go through
      `CallbackHelper`. `MessageCallback` is the engine's own message callback. */
  datatype Event =
    | Start(instance: Id, token: Id, element: Id)
    | Execute(flight: Flight, result: ExecResult, flows: map<string, Id>, newIds: seq<Id>)
    | FollowFlow(flight: Flight, target: Id)
    | Callback(token: Id, awaited: string, next: seq<string>, flows: map<string, Id>, newIds: seq<Id>)
    | FlowCallback(token: Id, awaited: string, next: seq<string>, flows: map<string, Id>)
    | MessageCallback(token: Id, name: string)
    | BoundaryTimer(token: Id, element: Id, interrupting: bool, newId: Id)

  // ----- Steps -----

  /** The targets of the flows that lead to an element. */
  function Resolved(next: seq<string>, flows: map<string, Id>): seq<Id> {
    if next == [] then []
    else
      var before, flow := Resolved(next[..|next| - 1], flows), next[|next| - 1];
      if flow in flows then before + [flows[flow]] else before
  }

  /** The first `n` clones of a fork: saved and launched one by one. */
  function Cloned(s: State, id: Id, t: Token, targets: seq<Id>, newIds: seq<Id>, n: nat): State
    requires n <= |targets| <= |newIds|
  {
    if n == 0 then s
    else
      var clone := t.Clone(id).MoveTo(targets[n - 1]);
      Cloned(s, id, t, targets, newIds, n - 1).Store(newIds[n - 1], clone).Launch(newIds[n - 1], clone)
  }

  function Move(s: State, id: Id, t: Token, targets: seq<Id>, newIds: seq<Id>): State
    requires |targets| <= |newIds|
  {
    if |targets| == 0 then s
    else if |targets| == 1 then
      var moved := t.MoveTo(targets[0]);
      s.Store(id, moved).Launch(id, moved)
    else
      var done := t.SetState(Completed);
      Cloned(s.Store(id, done), id, done, targets, newIds, |targets|)
  }

  ghost predicate AllCompleted(s: State, instance: Id) {
    forall id :: id in s.tokens && s.tokens[id].instance == instance ==> s.tokens[id].IsCompleted()
  }

  predicate AwaitsChild(t: Token, child: Id) { t.Awaits("call_activity:" + child) }

  function Parents(s: State, child: Id): set<Id> {
    set id | id in s.tokens && AwaitsChild(s.tokens[id], child)
  }

  /** The given tokens are cleared, saved and executed. */
  function Resumed(s: State, ids: set<Id>): State
    requires ids <= s.tokens.Keys
  {
    State(
      map id | id in s.tokens :: if id in ids then s.tokens[id].ClearWaitingFor() else s.tokens[id],
      s.instances,
      s.flights + multiset(set id | id in ids :: Flight(id, s.tokens[id].ClearWaitingFor())))
  }

  /** Tokens waiting for the finished child go on. */
  function Resume(s: State, child: Id): State { Resumed(s, Parents(s, child)) }

  lemma NoneResumed(s: State, ids: set<Id>)
    requires ids == {}
    ensures Resumed(s, ids) == s
  {
  }

  lemma ResumedOneMore(s: State, ids: set<Id>, id: Id)
    requires ids <= s.tokens.Keys && id in s.tokens && id !in ids
    ensures var token := s.tokens[id].ClearWaitingFor();
      Resumed(s, ids + {id}) == Resumed(s, ids).Store(id, token).Launch(id, token)
  {
  }

  ghost function CheckCompletion(s: State, instance: Id): State {
    if AllCompleted(s, instance) && instance in s.instances then
      Resume(s.(instances := s.instances[instance := InstanceCompleted]), instance)
    else s
  }

  ghost function ProcessResult(s: State, f: Flight, r: ExecResult, flows: map<string, Id>, newIds: seq<Id>): State
    requires r.ExecResult? ==> |r.next| <= |newIds|
  {
    var landed := s.Land(f);
    if r.ExecError? then landed.Store(f.id, f.token.SetState(Failed))
    else
      var t := f.token.SetState(r.state);
      if r.waitingFor != "" then landed.Store(f.id, t.SetWaitingFor(r.waitingFor))
      else if r.completed then CheckCompletion(landed.Store(f.id, t.SetState(Completed)), t.instance)
      else if r.next != [] then
        ResolvedShorter(r.next, flows);
        Move(landed, f.id, t, Resolved(r.next, flows), newIds)
      else if r.updated then landed.Store(f.id, t)
      else landed
  }

  lemma ResolvedShorter(next: seq<string>, flows: map<string, Id>)
    ensures |Resolved(next, flows)| <= |next|
  {
  }

  predicate Moves(r: ExecResult) { r.ExecResult? && r.waitingFor == "" && !r.completed && r.next != [] }

  predicate Completes(r: ExecResult) { r.ExecResult? && r.waitingFor == "" && r.completed }

  /** The state in which completion is checked after a completed execution. */
  function Checked(s: State, f: Flight, r: ExecResult): State
    requires r.ExecResult?
  {
    s.Land(f).Store(f.id, f.token.SetState(r.state).SetState(Completed))
  }

  predicate Accepts(s: State, id: Id, awaited: string) { id in s.tokens && s.tokens[id].Awaits(awaited) }

  /** The token goes on along the outgoing flows; without any it is completed, and completion is not checked. */
  function Continued(s: State, id: Id, next: seq<string>, flows: map<string, Id>, newIds: seq<Id>): State
    requires id in s.tokens && |next| <= |newIds|
  {
    var t := s.tokens[id].ClearWaitingFor();
    ResolvedShorter(next, flows);
    if next == [] then s.Store(id, t.SetState(Completed))
    else Move(s.Store(id, t), id, t, Resolved(next, flows), newIds)
  }

  /** The token goes on along the first flow that leads somewhere, if there is one. */
  function ContinuedFirst(s: State, id: Id, next: seq<string>, flows: map<string, Id>): State
    requires id in s.tokens
  {
    var t, targets := s.tokens[id].ClearWaitingFor(), Resolved(next, flows);
    if targets == [] then s.Store(id, t)
    else s.Store(id, t.MoveTo(targets[0])).Launch(id, t.MoveTo(targets[0]))
  }

  function Interrupted(t: Token, element: Id): Token {
    (if t.state == Waiting && "job:" <= t.waitingFor then t.ClearWaitingFor() else t).MoveTo(element)
  }

  ghost function Apply(s: State, e: Event): State
    requires Enabled(s, e)
  {
    match e
    case Start(instance, id, element) =>
      var t := NewToken(instance, element);
      s.(instances := s.instances[instance := InstanceActive]).Store(id, t).Launch(id, t)
    case Execute(f, r, flows, newIds) => ProcessResult(s, f, r, flows, newIds)
    case FollowFlow(f, target) =>
      var t := f.token.MoveTo(target);
      s.Land(f).Store(f.id, t).Launch(f.id, t)
    case Callback(id, awaited, next, flows, newIds) =>
      if Accepts(s, id, awaited) then Continued(s, id, next, flows, newIds) else s
    case FlowCallback(id, awaited, next, flows) =>
      if Accepts(s, id, awaited) then ContinuedFirst(s, id, next, flows) else s
    case MessageCallback(id, name) =>
      if Accepts(s, id, "message:" + name) then
        s.Launch(id, s.tokens[id].ClearWaitingFor())
      else s
    case BoundaryTimer(id, element, interrupting, newId) =>
      if id !in s.tokens || s.tokens[id].IsCompleted() then s
      else if interrupting then
        var t := Interrupted(s.tokens[id], element);
        s.Store(id, t).Launch(id, t)
      else
        var t := NewToken(s.tokens[id].instance, element);
        s.Store(newId, t).Launch(newId, t)
  }

  predicate Distinct(ids: seq<Id>) {
    forall i, j :: 0 <= i < j < |ids| ==> ids[i] != ids[j]
  }

  /** Executions are of tokens in progress, and generated identifiers are new. */
  ghost predicate Enabled(s: State, e: Event) {
    match e
    case Start(instance, id, _) => instance !in s.instances && NoTokenOf(s, instance) && id !in s.tokens
    case Execute(f, r, _, newIds) =>
      && f in s.flights
      && (r.ExecResult? ==> |r.next| <= |newIds|)
      && Distinct(newIds) && forall i :: 0 <= i < |newIds| ==> newIds[i] !in s.tokens
    case FollowFlow(f, _) => f in s.flights
    case Callback(_, _, next, _, newIds) =>
      |next| <= |newIds| && Distinct(newIds) && forall i :: 0 <= i < |newIds| ==> newIds[i] !in s.tokens
    case FlowCallback(_, _, _, _) => true
    case MessageCallback(_, _) => true
    case BoundaryTimer(_, _, _, newId) => newId !in s.tokens
  }

  ghost predicate NoTokenOf(s: State, instance: Id) {
    forall id :: id in s.tokens ==> s.tokens[id].instance != instance
  }

  const EMPTY := State(map[], map[], multiset{})

  ghost predicate IsRun(s: State, run: seq<Event>)
    decreases |run|
  {
    run != [] ==> Enabled(s, run[0]) && IsRun(Apply(s, run[0]), run[1..])
  }

  ghost function After(s: State, run: seq<Event>): State
    requires IsRun(s, run)
    decreases |run|
  {
    if run == [] then s else After(Apply(s, run[0]), run[1..])
  }

  // ----- Completion safety -----

  predicate IsFinished(s: State, instance: Id) {
    instance in s.instances && s.instances[instance] == InstanceCompleted
  }

  /** A completed instance has only completed tokens. */
  ghost predicate Safe(s: State) {
    forall id :: id in s.tokens && IsFinished(s, s.tokens[id].instance) ==> s.tokens[id].IsCompleted()
  }

  /** Stored and executing tokens agree on their instance, and it exists. */
  ghost predicate WellFormed(s: State) {
    && (forall id :: id in s.tokens ==> s.tokens[id].instance in s.instances)
    && (forall f :: f in s.flights ==> f.id in s.tokens && s.tokens[f.id].instance == f.token.instance)
  }

  /** Nothing is executing in a completed instance. */
  ghost predicate NoneExecuting(s: State) {
    forall f :: f in s.flights ==> !IsFinished(s, f.token.instance)
  }

  ghost predicate Quiet(s: State) { WellFormed(s) && Safe(s) && NoneExecuting(s) }

  /** Another execution of the instance is in progress. */
  ghost predicate ExecutingIn(s: State, instance: Id) {
    exists g :: g in s.flights && g.token.instance == instance
  }

  /** The step will complete its instance while another execution of the same instance is in progress: its result is
      completed, the instance is stored and not finished, all its other stored tokens are completed, and an execution
      of it remains. */
  ghost predicate CompletesEarly(s: State, e: Event) {
    && e.Execute? && Completes(e.result)
    && e.flight.token.instance in s.instances && !IsFinished(s, e.flight.token.instance)
    && AllCompleted(Checked(s, e.flight, e.result), e.flight.token.instance)
    && ExecutingIn(s.Land(e.flight), e.flight.token.instance)
  }
}
