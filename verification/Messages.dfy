/** Publishing, buffering and correlating messages, as a state machine over subscriptions and buffered messages. */
module Messages {
  import opened Logic
  import opened Text
  import F = TokenFlow

  type Id = string

  datatype Subscription =
    Subscription(id: Id, tenant: string, process: string, element: string, name: string, key: string, active: bool)

  datatype Message =
    Message(tenant: string, name: string, key: string, element: string, variables: Value, expires: Option<int>)
  {
    predicate IsExpired(now: int) { expires.Some? && now > expires.value }
  }

  /** An entry of the token store. */
  datatype Held = Held(id: Id, token: F.Token)

  // ----- Matching -----

  function TrimQuotes(s: string): (r: string)
    ensures |r| <= |s|
    decreases |s|
  {
    if s == "" then s
    else if s[0] == '"' then TrimQuotes(s[1..])
    else if s[|s| - 1] == '"' then TrimQuotes(s[..|s| - 1])
    else s
  }

  /** A key that starts with `=` is an expression: a quoted literal, or the bare text. */
  function KeyValue(key: string): (r: string)
    ensures HasPrefix(key, "=") ==> |r| < |key|
    ensures !HasPrefix(key, "=") ==> r == key
  {
    if !HasPrefix(key, "=") then key
    else if |key| > 1 && key[1] == '"' && key[|key| - 1] == '"' then TrimQuotes(key[1..])
    else key[1..]
  }

  /** `PublishMessage`: an empty key on either side matches every key. */
  predicate Matches(sub: Subscription, m: Message) {
    sub.name == m.name && sub.active && (m.key == "" || sub.key == "" || KeyValue(sub.key) == m.key)
  }

  /** `ProcessBufferedMessages` compares with the key as it is written. */
  predicate Picks(sub: Subscription, m: Message) {
    m.name == sub.name && (sub.key == "" || m.key == sub.key)
  }

  predicate InTenant(tenant: string, filter: string) { filter == "" || tenant == filter }

  const SUBSCRIPTION_LIMIT: nat := 100
  const BUFFER_LIMIT: nat := 1000
  const LOOKUP_LIMIT: nat := 1000

  /** The tenant's subscriptions in key order, the first hundred. */
  function ListedSubs(subs: seq<Subscription>, tenant: string): (r: seq<Subscription>)
    ensures |r| <= SUBSCRIPTION_LIMIT
  {
    if subs == [] then []
    else
      var before, sub := ListedSubs(subs[..|subs| - 1], tenant), subs[|subs| - 1];
      if |before| < SUBSCRIPTION_LIMIT && InTenant(sub.tenant, tenant) then before + [sub] else before
  }

  function FirstMatch(subs: seq<Subscription>, m: Message): Option<Subscription> {
    if subs == [] then None
    else
      var before, sub := FirstMatch(subs[..|subs| - 1], m), subs[|subs| - 1];
      if before.None? && Matches(sub, m) then Some(sub) else before
  }

  function Target(subs: seq<Subscription>, m: Message): Option<Subscription> {
    FirstMatch(ListedSubs(subs, m.tenant), m)
  }

  /** What the engine looks for when it starts an instance for a message: its name, in any tenant and with any key. */
  function AnyOf(name: string): Message { Message("", name, "", "", Null, None) }

  predicate WaitsAt(h: Held, element: string) { h.token.state == F.Waiting && h.token.element == element }

  predicate WaitsFor(h: Held, element: string, name: string) {
    WaitsAt(h, element) && h.token.waitingFor == "message:" + name
  }

  function FirstWaiting(tokens: seq<Held>, element: string, name: string): Option<Held> {
    if tokens == [] then None
    else
      var before, h := FirstWaiting(tokens[..|tokens| - 1], element, name), tokens[|tokens| - 1];
      if before.None? && WaitsFor(h, element, name) then Some(h) else before
  }

  // ----- Steps -----

  datatype Decision =
    | Buffer
    | StartInstance(sub: Subscription)
    | Deliver(sub: Subscription, to: Held)
    | Drop(sub: Subscription)

  /** What happens to a message, given the subscriptions and the stored tokens. */
  function Decide(subs: seq<Subscription>, m: Message, tokens: seq<Held>): Decision {
    match Target(subs, m)
    case None => Buffer
    case Some(sub) =>
      if !exists i :: 0 <= i < |tokens| && WaitsAt(tokens[i], sub.element) then StartInstance(sub)
      else
        match FirstWaiting(tokens, sub.element, m.name)
        case None => Drop(sub)
        case Some(h) => Deliver(sub, h)
  }

  /** A token handed a message, with the subscription that was used up for it. */
  datatype Correlation = Correlation(sub: Id, element: string, name: string, to: Held)

  /** `subs` is in key order. The counters record what has happened to messages so far. */
  datatype State = State(subs: seq<Subscription>, buffer: map<Id, Message>,
                         published: nat, started: nat, dropped: nat, expired: nat, correlated: seq<Correlation>)

  function Without(subs: seq<Subscription>, id: Id): (r: seq<Subscription>)
    ensures forall sub :: sub in r ==> sub in subs && sub.id != id
  {
    if subs == [] then []
    else
      var before, sub := Without(subs[..|subs| - 1], id), subs[|subs| - 1];
      if sub.id == id then before else before + [sub]
  }

  /** `PublishMessage`; `newId` is the id under which the message would be buffered. */
  function Publish(s: State, m: Message, tokens: seq<Held>, newId: Id): State {
    match Decide(s.subs, m, tokens)
    case Buffer => s.(buffer := s.buffer[newId := m])
    case StartInstance(_) => s.(started := s.started + 1)
    case Drop(_) => s.(dropped := s.dropped + 1)
    case Deliver(sub, h) =>
      s.(subs := Without(s.subs, sub.id), correlated := s.correlated + [Correlation(sub.id, sub.element, m.name, h)])
  }

  /** The world as one iteration of the replay loop meets it: engine steps may run between iterations. */
  datatype Moment = Moment(now: int, tokens: seq<Held>, newId: Id)

  function ListedMessages(order: seq<Id>, buffer: map<Id, Message>, tenant: string): (ids: seq<Id>)
    requires forall id :: id in order ==> id in buffer
    requires Distinct(order)
    ensures |ids| <= BUFFER_LIMIT && Distinct(ids)
    ensures forall id :: id in ids ==> id in order && InTenant(buffer[id].tenant, tenant)
  {
    if order == [] then []
    else
      var before, id := ListedMessages(order[..|order| - 1], buffer, tenant), order[|order| - 1];
      if |before| < BUFFER_LIMIT && InTenant(buffer[id].tenant, tenant) then before + [id] else before
  }

  predicate Distinct(ids: seq<Id>) {
    forall i, j :: 0 <= i < j < |ids| ==> ids[i] != ids[j]
  }

  predicate Lists(order: seq<Id>, buffer: map<Id, Message>) {
    Distinct(order) && (forall id :: id in order ==> id in buffer) && (forall id :: id in buffer ==> id in order)
  }

  /** The listed messages are in the buffer, and the ids drawn for them are new. */
  predicate Ready(buffer: map<Id, Message>, ids: seq<Id>, moments: seq<Moment>) {
    && Distinct(ids) && |moments| == |ids|
    && (forall id :: id in ids ==> id in buffer)
    && (forall i :: 0 <= i < |moments| ==> moments[i].newId !in buffer)
    && forall i, j :: 0 <= i < j < |moments| ==> moments[i].newId != moments[j].newId
  }

  /** One listed message: published again without an expiry time, then deleted. */
  function ReplayOne(s: State, sub: Subscription, id: Id, m: Message, now: Moment): State {
    if Picks(sub, m) && !m.IsExpired(now.now) then
      var z := Publish(s, m.(expires := None), now.tokens, now.newId);
      z.(buffer := z.buffer - {id})
    else s
  }

  /** The first `n` messages of the snapshot `ids` of the buffer of `s`. */
  function Replayed(s: State, sub: Subscription, ids: seq<Id>, moments: seq<Moment>, n: nat): State
    requires Ready(s.buffer, ids, moments) && n <= |ids|
  {
    if n == 0 then s
    else ReplayOne(Replayed(s, sub, ids, moments, n - 1), sub, ids[n - 1], s.buffer[ids[n - 1]], moments[n - 1])
  }

  /** Message `i` of the snapshot is wanted and has not expired. */
  predicate Handled(s: State, sub: Subscription, ids: seq<Id>, moments: seq<Moment>, i: nat)
    requires Ready(s.buffer, ids, moments) && i < |ids|
  {
    var m := s.buffer[ids[i]];
    Picks(sub, m) && !m.IsExpired(moments[i].now)
  }

  function HandledCount(s: State, sub: Subscription, ids: seq<Id>, moments: seq<Moment>, n: nat): nat
    requires Ready(s.buffer, ids, moments) && n <= |ids|
  {
    if n == 0 then 0
    else HandledCount(s, sub, ids, moments, n - 1) + if Handled(s, sub, ids, moments, n - 1) then 1 else 0
  }

  /** The subscription store has an entry for the same tenant, process and event. */
  predicate Exists(subs: seq<Subscription>, sub: Subscription) {
    exists i :: 0 <= i < |subs| && SameEvent(subs[i], sub)
  }

  predicate SameEvent(a: Subscription, b: Subscription) {
    a.tenant == b.tenant && a.process == b.process && a.element == b.element
  }

  /** `at` is the place of the new key in the key order. */
  function Subscribed(s: State, sub: Subscription, at: nat): State
    requires at <= |s.subs|
  {
    if Exists(s.subs, sub) then s else s.(subs := s.subs[..at] + [sub] + s.subs[at..])
  }

  /** Deletion by id first looks the subscription up among the first thousand. */
  predicate Findable(subs: seq<Subscription>, id: Id) {
    exists i :: 0 <= i < |subs| && i < LOOKUP_LIMIT && subs[i].id == id
  }

  /** Saving a subscription again under its id. */
  function Replaced(subs: seq<Subscription>, sub: Subscription): (r: seq<Subscription>)
    ensures |r| == |subs| && forall i :: 0 <= i < |subs| ==> r[i] == if subs[i].id == sub.id then sub else subs[i]
  {
    if subs == [] then []
    else
      var last := subs[|subs| - 1];
      Replaced(subs[..|subs| - 1], sub) + [if last.id == sub.id then sub else last]
  }

  function ExpiredIds(buffer: map<Id, Message>, ids: seq<Id>, now: int): set<Id>
    requires forall id :: id in ids ==> id in buffer
  {
    set id | id in ids && buffer[id].IsExpired(now)
  }

  datatype Event =
    | Publishing(m: Message, tokens: seq<Held>, newId: Id)
    | Subscribing(sub: Subscription, at: nat, order: seq<Id>, moments: seq<Moment>)
    | Unsubscribing(id: Id)
    | Updating(sub: Subscription)
    | Cleaning(now: int, order: seq<Id>)

  /** Ids are drawn afresh: neither a stored entry nor a used-up subscription has them. */
  predicate Enabled(s: State, e: Event) {
    match e
    case Publishing(_, _, newId) => newId !in s.buffer
    case Subscribing(sub, at, order, moments) =>
      && at <= |s.subs| && Lists(order, s.buffer) && Unused(s, sub.id)
      && Ready(s.buffer, ListedMessages(order, s.buffer, sub.tenant), moments)
    case Unsubscribing(_) => true
    case Updating(_) => true
    case Cleaning(_, order) => Lists(order, s.buffer)
  }

  predicate Unused(s: State, id: Id) {
    && (forall i :: 0 <= i < |s.subs| ==> s.subs[i].id != id)
    && forall i :: 0 <= i < |s.correlated| ==> s.correlated[i].sub != id
  }

  function Apply(s: State, e: Event): State
    requires Enabled(s, e)
  {
    match e
    case Publishing(m, tokens, newId) => Publish(s.(published := s.published + 1), m, tokens, newId)
    case Subscribing(sub, at, order, moments) =>
      var ids := ListedMessages(order, s.buffer, sub.tenant);
      Replayed(Subscribed(s, sub, at), sub, ids, moments, |ids|)
    case Unsubscribing(id) => if Findable(s.subs, id) then s.(subs := Without(s.subs, id)) else s
    case Updating(sub) => if Findable(s.subs, sub.id) then s.(subs := Replaced(s.subs, sub)) else s
    case Cleaning(now, order) =>
      var gone := ExpiredIds(s.buffer, ListedMessages(order, s.buffer, ""), now);
      s.(buffer := s.buffer - gone, expired := s.expired + |gone|)
  }

  predicate Initial(s: State) {
    |s.subs| == |s.buffer| == s.published == s.started == s.dropped == s.expired == |s.correlated| == 0
  }

  predicate IsRun(s: State, run: seq<Event>)
    decreases |run|
  {
    run != [] ==> Enabled(s, run[0]) && IsRun(Apply(s, run[0]), run[1..])
  }

  function After(s: State, run: seq<Event>): State
    requires IsRun(s, run)
    decreases |run|
  {
    if run == [] then s else After(Apply(s, run[0]), run[1..])
  }
}
