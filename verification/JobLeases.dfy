/** The job life cycle as a state machine: activation under a lease, completion, failure, cancellation, expiry. */
module JobLeases {
  import opened Logic

  type Id = string

  datatype Status = Pending | Running | Completed | Failed | Canceled | Deferred | ErrorThrown

  /** `lease` is the source's `ScheduledAt`: lease expiry while running, retry time while deferred. */
  datatype Job = Job(kind: string, status: Status, worker: string, retries: int, lease: Option<int>) {
    predicate IsCompleted() { status in {Completed, Failed, Canceled, ErrorThrown} }

    function Started(workerId: string, expiry: int): Job {
      this.(status := Running, worker := workerId, lease := Some(expiry))
    }

    /** `FailJob`: FAILED, or DEFERRED when retries are left and a backoff is given. */
    function FailedWith(left: int, backoff: int, now: int): Job {
      var failed := this.(status := Failed, retries := left);
      if left > 0 && backoff > 0 then failed.(status := Deferred, lease := Some(now + backoff)) else failed
    }

    function WithRetries(left: int): Job {
      this.(retries := left, status := if status == Failed && left > 0 then Pending else status)
    }

    predicate Expired(now: int) { lease.Some? && now > lease.value }

    function Released(): Job { this.(status := Pending, worker := "", lease := None) }
  }

  /** What has happened to each job so far. `withdrawn` counts the times a job left RUNNING by failure, cancellation
      or a BPMN error. */
  datatype History =
    History(activated: multiset<Id>, completed: multiset<Id>, expired: multiset<Id>, withdrawn: multiset<Id>)
  {
    predicate Mentions(id: Id) { id in activated || id in completed || id in expired || id in withdrawn }
  }

  datatype State = State(jobs: map<Id, Job>, past: History)

  /** Times and durations are integers of one unit. `order` is the key order in which the store lists jobs. */
  datatype Event =
    | Create(id: Id, kind: string, retries: int)
    | Activate(kind: string, worker: string, maxJobs: int, expiry: int, order: seq<Id>)
    | Complete(id: Id)
    | CompleteWithError(id: Id)
    | Fail(id: Id, left: int, backoff: int, now: int)
    | ThrowError(id: Id)
    | UpdateRetries(id: Id, left: int)
    | Cancel(id: Id)
    | UpdateTimeout(id: Id, expiry: int)
    | ThrowJobError(id: Id)
    | Cleanup(now: int, order: seq<Id>)

  predicate Distinct(ids: seq<Id>) {
    forall i, j :: 0 <= i < j < |ids| ==> ids[i] != ids[j]
  }

  predicate Lists(order: seq<Id>, jobs: map<Id, Job>) {
    Distinct(order) && (forall id :: id in order ==> id in jobs) && (forall id :: id in jobs ==> id in order)
  }

  predicate Enabled(s: State, e: Event) {
    match e
    case Create(id, _, _) => id !in s.jobs && !s.past.Mentions(id)
    case Activate(_, _, _, _, order) => Lists(order, s.jobs)
    case Cleanup(_, order) => Lists(order, s.jobs)
    case _ => true
  }

  predicate Matches(j: Job, kind: string, status: Status) {
    (kind == "" || j.kind == kind) && j.status == status
  }

  /** `ListJobsByType`: the matching jobs in key order, the first `limit` of them when a limit is set. */
  function Listed(order: seq<Id>, jobs: map<Id, Job>, kind: string, status: Status, limit: int): (ids: seq<Id>)
    requires Distinct(order) && forall id :: id in order ==> id in jobs
    ensures forall id :: id in ids ==> id in order && id in jobs && Matches(jobs[id], kind, status)
    ensures Distinct(ids)
    ensures limit > 0 ==> |ids| <= limit
  {
    if order == [] then []
    else
      var before, id := Listed(order[..|order| - 1], jobs, kind, status, limit), order[|order| - 1];
      if (limit <= 0 || |before| < limit) && Matches(jobs[id], kind, status) then before + [id] else before
  }

  /** `ActivateJobs` stops once it has `maxJobs` jobs, but only looks after taking one. */
  function Taken(order: seq<Id>, jobs: map<Id, Job>, kind: string, maxJobs: int): (ids: seq<Id>)
    requires Distinct(order) && forall id :: id in order ==> id in jobs
    ensures Distinct(ids) && forall id :: id in ids ==> id in jobs && Matches(jobs[id], kind, Pending)
  {
    var ids := Listed(order, jobs, kind, Pending, maxJobs);
    if maxJobs <= 0 && |ids| > 1 then ids[..1] else ids
  }

  function StartedAll(jobs: map<Id, Job>, ids: seq<Id>, worker: string, expiry: int): map<Id, Job>
    requires forall id :: id in ids ==> id in jobs
  {
    map id | id in jobs :: if id in ids then jobs[id].Started(worker, expiry) else jobs[id]
  }

  function ExpiredIds(jobs: map<Id, Job>, ids: seq<Id>, now: int): set<Id>
    requires forall id :: id in ids ==> id in jobs
  {
    set id | id in ids && jobs[id].Expired(now)
  }

  function ReleasedAll(jobs: map<Id, Job>, ids: set<Id>): map<Id, Job>
    requires ids <= jobs.Keys
  {
    map id | id in jobs :: if id in ids then jobs[id].Released() else jobs[id]
  }

  function StartOne(s: State, id: Id, worker: string, expiry: int): State
    requires id in s.jobs
  {
    State(s.jobs[id := s.jobs[id].Started(worker, expiry)], s.past.(activated := s.past.activated + multiset{id}))
  }

  /** The first `n` of the listed jobs started one by one. */
  function StartedFirst(s: State, ids: seq<Id>, n: nat, worker: string, expiry: int): (z: State)
    requires n <= |ids| && forall id :: id in ids ==> id in s.jobs
    ensures z.jobs.Keys == s.jobs.Keys
  {
    if n == 0 then s else StartOne(StartedFirst(s, ids, n - 1, worker, expiry), ids[n - 1], worker, expiry)
  }

  lemma {:induction false} StartedFirstKeeps(s: State, ids: seq<Id>, n: nat, k: nat, worker: string, expiry: int)
    requires n <= k < |ids| && Distinct(ids) && forall id :: id in ids ==> id in s.jobs
    ensures StartedFirst(s, ids, n, worker, expiry).jobs[ids[k]] == s.jobs[ids[k]]
  {
    if n > 0 {
      StartedFirstKeeps(s, ids, n - 1, k, worker, expiry);
    }
  }

  lemma NoneStarted(s: State, ids: seq<Id>, worker: string, expiry: int)
    requires ids == []
    ensures StartedIds(s, ids, worker, expiry) == s
  {
  }

  lemma NotBefore(ids: seq<Id>, n: nat)
    requires Distinct(ids) && 0 < n <= |ids|
    ensures ids[..n] == ids[..n - 1] + [ids[n - 1]] && ids[n - 1] !in ids[..n - 1]
  {
  }

  lemma StartedNext(s: State, ids: seq<Id>, n: nat, worker: string, expiry: int)
    requires 0 < n <= |ids| && Distinct(ids) && forall id :: id in ids ==> id in s.jobs
    ensures ids[n - 1] in StartedIds(s, ids[..n - 1], worker, expiry).jobs
    ensures StartedIds(s, ids[..n], worker, expiry)
         == StartOne(StartedIds(s, ids[..n - 1], worker, expiry), ids[n - 1], worker, expiry)
  {
    NotBefore(ids, n);
    StartedIdsOneMore(s, ids[..n - 1], ids[n - 1], worker, expiry);
  }

  lemma {:induction false} StartedFirstAll(s: State, ids: seq<Id>, n: nat, worker: string, expiry: int)
    requires n <= |ids| && Distinct(ids) && forall id :: id in ids ==> id in s.jobs
    ensures StartedFirst(s, ids, n, worker, expiry) == StartedIds(s, ids[..n], worker, expiry)
  {
    if n == 0 {
      NoneStarted(s, ids[..0], worker, expiry);
    } else {
      StartedFirstAll(s, ids, n - 1, worker, expiry);
      StartedNext(s, ids, n, worker, expiry);
    }
  }

  function StartedIds(s: State, ids: seq<Id>, worker: string, expiry: int): State
    requires forall id :: id in ids ==> id in s.jobs
  {
    State(StartedAll(s.jobs, ids, worker, expiry), s.past.(activated := s.past.activated + multiset(ids)))
  }

  lemma StartedIdsOneMore(s: State, ids: seq<Id>, id: Id, worker: string, expiry: int)
    requires (forall k :: k in ids ==> k in s.jobs) && id in s.jobs && id !in ids
    ensures id in StartedIds(s, ids, worker, expiry).jobs
    ensures StartedIds(s, ids + [id], worker, expiry)
         == StartOne(StartedIds(s, ids, worker, expiry), id, worker, expiry)
  {
  }

  function ReleaseOne(s: State, id: Id, now: int): State
    requires id in s.jobs
  {
    if s.jobs[id].Expired(now) then
      State(s.jobs[id := s.jobs[id].Released()], s.past.(expired := s.past.expired + multiset{id}))
    else s
  }

  /** The first `n` of the listed jobs released one by one where their lease has expired. */
  function ReleasedFirst(s: State, ids: seq<Id>, n: nat, now: int): (z: State)
    requires n <= |ids| && forall id :: id in ids ==> id in s.jobs
    ensures z.jobs.Keys == s.jobs.Keys
  {
    if n == 0 then s else ReleaseOne(ReleasedFirst(s, ids, n - 1, now), ids[n - 1], now)
  }

  lemma ExpiredOneMore(jobs: map<Id, Job>, ids: seq<Id>, n: nat, now: int)
    requires (forall k :: k in ids ==> k in jobs) && 0 < n <= |ids| && Distinct(ids)
    ensures var before, id := ExpiredIds(jobs, ids[..n - 1], now), ids[n - 1];
      id !in before && ExpiredIds(jobs, ids[..n], now) == if jobs[id].Expired(now) then before + {id} else before
  {
  }

  lemma NoneReleased(s: State, ids: set<Id>)
    requires ids == {}
    ensures ReleasedIds(s, ids) == s
  {
  }

  lemma {:induction false} ReleasedFirstAll(s: State, ids: seq<Id>, n: nat, now: int)
    requires n <= |ids| && Distinct(ids) && forall id :: id in ids ==> id in s.jobs
    ensures ReleasedFirst(s, ids, n, now) == ReleasedIds(s, ExpiredIds(s.jobs, ids[..n], now))
  {
    if n == 0 {
      NoneReleased(s, ExpiredIds(s.jobs, ids[..0], now));
    } else {
      ReleasedFirstAll(s, ids, n - 1, now);
      ExpiredOneMore(s.jobs, ids, n, now);
      ReleasedIdsOneMore(s, ExpiredIds(s.jobs, ids[..n - 1], now), ids[n - 1], now);
    }
  }

  lemma ReleasedIdsOneMore(s: State, ids: set<Id>, id: Id, now: int)
    requires ids <= s.jobs.Keys && id in s.jobs && id !in ids
    ensures id in ReleasedIds(s, ids).jobs
    ensures ReleasedIds(s, if s.jobs[id].Expired(now) then ids + {id} else ids)
         == ReleaseOne(ReleasedIds(s, ids), id, now)
  {
  }

  function ReleasedIds(s: State, ids: set<Id>): State
    requires ids <= s.jobs.Keys
  {
    State(ReleasedAll(s.jobs, ids), s.past.(expired := s.past.expired + multiset(ids)))
  }

  const CLEANUP_LIMIT: int := 1000

  /** Replacing a job by one that is not running; if it was running, it is counted in `withdrawn`. */
  function Withdraw(s: State, id: Id, j: Job): State
    requires id in s.jobs
  {
    State(s.jobs[id := j],
          if s.jobs[id].status == Running then s.past.(withdrawn := s.past.withdrawn + multiset{id}) else s.past)
  }

  function Apply(s: State, e: Event): State
    requires Enabled(s, e)
  {
    match e
    case Create(id, kind, retries) => s.(jobs := s.jobs[id := Job(kind, Pending, "", retries, None)])
    case Activate(kind, worker, maxJobs, expiry, order) =>
      var ids := Taken(order, s.jobs, kind, maxJobs);
      StartedIds(s, ids, worker, expiry)
    case Complete(id) =>
      if id in s.jobs && s.jobs[id].status == Running then
        State(s.jobs[id := s.jobs[id].(status := Completed)], s.past.(completed := s.past.completed + multiset{id}))
      else s
    case CompleteWithError(id) => if id in s.jobs then Withdraw(s, id, s.jobs[id].(status := ErrorThrown)) else s
    case Fail(id, left, backoff, now) =>
      if id in s.jobs then Withdraw(s, id, s.jobs[id].FailedWith(left, backoff, now)) else s
    case ThrowError(id) => s
    case UpdateRetries(id, left) => if id in s.jobs then s.(jobs := s.jobs[id := s.jobs[id].WithRetries(left)]) else s
    case Cancel(id) =>
      if id in s.jobs && !s.jobs[id].IsCompleted() then Withdraw(s, id, s.jobs[id].(status := Canceled)) else s
    case UpdateTimeout(id, expiry) =>
      if id in s.jobs && s.jobs[id].status == Running && s.jobs[id].lease.Some? then
        s.(jobs := s.jobs[id := s.jobs[id].(lease := Some(expiry))])
      else s
    case ThrowJobError(id) => if id in s.jobs then Withdraw(s, id, s.jobs[id].(status := ErrorThrown)) else s
    case Cleanup(now, order) =>
      var ids := ExpiredIds(s.jobs, Listed(order, s.jobs, "", Running, CLEANUP_LIMIT), now);
      ReleasedIds(s, ids)
  }

  const EMPTY := State(map[], History(multiset{}, multiset{}, multiset{}, multiset{}))

  predicate IsRun(s: State, run: seq<Event>)
    decreases |run|
  {
    run != [] ==> Enabled(s, run[0]) && IsRun(Apply(s, run[0]), run[1..])
  }

  function After(s: State, run: seq<Event>): State
    requires IsRun(s, run)
    decreases |run|
  {
    if run == [] then s else After(Apply(s, run[0]), run[1..])
  }

  // ----- Lease accounting -----

  function IsRunning(s: State, id: Id): nat {
    if id in s.jobs && s.jobs[id].status == Running then 1 else 0
  }

  /** Every activation of the job has exactly one outcome so far. */
  predicate Balanced(s: State, id: Id) {
    s.past.activated[id] == s.past.completed[id] + s.past.expired[id] + s.past.withdrawn[id] + IsRunning(s, id)
  }

  predicate Leased(s: State) {
    forall id :: id in s.jobs && s.jobs[id].status == Running ==> s.jobs[id].lease.Some?
  }

  ghost predicate Accounted(s: State) {
    Leased(s) && forall id :: Balanced(s, id)
  }

  lemma {:induction false} DistinctOccursOnce(ids: seq<Id>, id: Id)
    requires Distinct(ids)
    ensures multiset(ids)[id] == if id in ids then 1 else 0
    decreases |ids|
  {
    if ids != [] {
      var init, last := ids[..|ids| - 1], ids[|ids| - 1];
      DistinctOccursOnce(init, id);
      assert ids == init + [last] && last !in init;
    }
  }

  lemma StepAccounts(s: State, e: Event)
    requires Enabled(s, e) && Accounted(s)
    ensures Accounted(Apply(s, e))
  {
    forall id
      ensures Balanced(Apply(s, e), id)
    {
      assert Balanced(s, id);
      StepBalances(s, e, id);
    }
    StepLeases(s, e);
  }

  lemma StepLeases(s: State, e: Event)
    requires Enabled(s, e) && Leased(s)
    ensures Leased(Apply(s, e))
  {
  }

  lemma StepBalances(s: State, e: Event, id: Id)
    requires Enabled(s, e) && Balanced(s, id)
    ensures Balanced(Apply(s, e), id)
  {
    if e.Activate? {
      ActivationBalances(s, Taken(e.order, s.jobs, e.kind, e.maxJobs), e.worker, e.expiry, id);
    }
  }

  lemma ActivationBalances(s: State, ids: seq<Id>, worker: string, expiry: int, id: Id)
    requires Balanced(s, id) && Distinct(ids) && forall k :: k in ids ==> k in s.jobs && s.jobs[k].status == Pending
    ensures Balanced(StartedIds(s, ids, worker, expiry), id)
  {
    DistinctOccursOnce(ids, id);
  }

  lemma {:induction false} RunAccounts(s: State, run: seq<Event>)
    requires IsRun(s, run) && Accounted(s)
    ensures Accounted(After(s, run))
    decreases |run|
  {
    if run != [] {
      StepAccounts(s, run[0]);
      RunAccounts(Apply(s, run[0]), run[1..]);
    }
  }

  /** Over all runs, every activation of a job is either still running or has ended in exactly one way, and every
      running job carries a lease. */
  lemma LeaseAccounting(run: seq<Event>, id: Id)
    requires IsRun(EMPTY, run)
    ensures var s := After(EMPTY, run);
      && s.past.activated[id] == s.past.completed[id] + s.past.expired[id] + s.past.withdrawn[id] + IsRunning(s, id)
      && (id in s.jobs && s.jobs[id].status == Running ==> s.jobs[id].lease.Some?)
  {
    RunAccounts(EMPTY, run);
    assert Balanced(After(EMPTY, run), id);
  }

  // ----- Cleanup -----

  /** With a limit, the listing is cut off, not thinned out. */
  lemma {:induction false} ListedIsPrefix(order: seq<Id>, jobs: map<Id, Job>, kind: string, status: Status, limit: int)
    requires Distinct(order) && (forall id :: id in order ==> id in jobs) && limit > 0
    ensures var all := Listed(order, jobs, kind, status, 0);
      Listed(order, jobs, kind, status, limit) == if |all| <= limit then all else all[..limit]
    decreases |order|
  {
    if order != [] {
      ListedIsPrefix(order[..|order| - 1], jobs, kind, status, limit);
    }
  }

  lemma {:induction false} ListedFindsAll(order: seq<Id>, jobs: map<Id, Job>, kind: string, status: Status, id: Id)
    requires Distinct(order) && (forall id :: id in order ==> id in jobs)
    requires id in order && Matches(jobs[id], kind, status)
    ensures id in Listed(order, jobs, kind, status, 0)
    decreases |order|
  {
    if id != order[|order| - 1] {
      ListedFindsAll(order[..|order| - 1], jobs, kind, status, id);
    }
  }

  /** No running job has a lease that ended before `now`. */
  predicate NoneOverdue(jobs: map<Id, Job>, now: int) {
    forall id :: id in jobs && jobs[id].status == Running ==> !jobs[id].Expired(now)
  }

  predicate NoneOverdueBeyond(jobs: map<Id, Job>, running: seq<Id>, now: int)
    requires forall id :: id in running ==> id in jobs
  {
    forall i :: CLEANUP_LIMIT <= i < |running| ==> !jobs[running[i]].Expired(now)
  }

  /** A cleanup pass clears every overdue lease exactly when no overdue job lies beyond the first 1000 running jobs;
      in particular whenever at most 1000 jobs are running. */
  lemma CleanupExact(s: State, now: int, order: seq<Id>)
    requires Enabled(s, Cleanup(now, order))
    ensures var running := Listed(order, s.jobs, "", Running, 0);
      NoneOverdue(Apply(s, Cleanup(now, order)).jobs, now) == NoneOverdueBeyond(s.jobs, running, now)
  {
    var running := Listed(order, s.jobs, "", Running, 0);
    var seen := Listed(order, s.jobs, "", Running, CLEANUP_LIMIT);
    var z := Apply(s, Cleanup(now, order));
    ListedIsPrefix(order, s.jobs, "", Running, CLEANUP_LIMIT);
    if NoneOverdue(z.jobs, now) {
      forall i | CLEANUP_LIMIT <= i < |running|
        ensures !s.jobs[running[i]].Expired(now)
      {
        assert running[i] !in seen;
        assert z.jobs[running[i]] == s.jobs[running[i]];
      }
    }
    if NoneOverdueBeyond(s.jobs, running, now) {
      forall id | id in z.jobs && z.jobs[id].status == Running
        ensures !z.jobs[id].Expired(now)
      {
        ListedFindsAll(order, s.jobs, "", Running, id);
        var i :| 0 <= i < |running| && running[i] == id;
        assert i < CLEANUP_LIMIT ==> id in seen;
      }
    }
  }

  lemma {:induction false} ListedAll(order: seq<Id>, jobs: map<Id, Job>, status: Status)
    requires Distinct(order) && forall id :: id in order ==> id in jobs && jobs[id].status == status
    ensures Listed(order, jobs, "", status, 0) == order
    decreases |order|
  {
    if order != [] {
      ListedAll(order[..|order| - 1], jobs, status);
      assert order == order[..|order| - 1] + [order[|order| - 1]];
    }
  }

  function Name(i: nat): (name: Id)
    ensures |name| == i
  {
    if i == 0 then "" else Name(i - 1) + "x"
  }

  function Names(n: nat): (names: seq<Id>)
    ensures |names| == n && Distinct(names) && forall i :: 0 <= i < n ==> names[i] == Name(i)
  {
    if n == 0 then [] else Names(n - 1) + [Name(n - 1)]
  }

  function Overdue(names: seq<Id>): map<Id, Job> {
    map id | id in names :: Job("work", Running, "worker", 0, Some(0))
  }

  /** With more than 1000 running jobs, all overdue, a cleanup pass misses some. */
  lemma CleanupMisses(n: nat)
    requires n > CLEANUP_LIMIT
    ensures var s := EMPTY.(jobs := Overdue(Names(n)));
      Enabled(s, Cleanup(1, Names(n))) && !NoneOverdue(Apply(s, Cleanup(1, Names(n))).jobs, 1)
  {
    MissesBeyondLimit(EMPTY.(jobs := Overdue(Names(n))), Names(n));
  }

  lemma MissesBeyondLimit(s: State, names: seq<Id>)
    requires Distinct(names) && |names| > CLEANUP_LIMIT && s.jobs == Overdue(names)
    ensures Enabled(s, Cleanup(1, names)) && !NoneOverdue(Apply(s, Cleanup(1, names)).jobs, 1)
  {
    ListedAll(names, s.jobs, Running);
    CleanupExact(s, 1, names);
    assert s.jobs[names[CLEANUP_LIMIT]].Expired(1);
  }

  // ----- Retries -----

  predicate Parked(s: State, id: Id) {
    id in s.jobs && s.jobs[id].status !in {Pending, Running}
  }

  /** The one step that makes a parked job available again. */
  predicate Revives(s: State, e: Event, id: Id) {
    id in s.jobs && s.jobs[id].status == Failed && e.UpdateRetries? && e.id == id && e.left > 0
  }

  /** A parked job becomes available exactly by an update of the retries of a FAILED job; no other step touches it. */
  lemma ParkedExact(s: State, e: Event, id: Id)
    requires Enabled(s, e) && Parked(s, id)
    ensures Parked(Apply(s, e), id) <==> !Revives(s, e, id)
    ensures Apply(s, e).past.activated[id] == s.past.activated[id]
    ensures Revives(s, e, id) ==> Apply(s, e).jobs[id].status == Pending
  {
    if e.Activate? {
      assert id !in Taken(e.order, s.jobs, e.kind, e.maxJobs);
    } else if e.Cleanup? {
      assert id !in Listed(e.order, s.jobs, "", Running, CLEANUP_LIMIT);
    }
  }

  predicate FailsJob(e: Event, id: Id) { e.Fail? && e.id == id }

  predicate FinishedOrDeferred(s: State, id: Id) {
    id in s.jobs && s.jobs[id].status in {Deferred, Completed, Canceled, ErrorThrown}
  }

  /** A deferred job is never retried on its own: whatever happens, short of failing the job again, it is not
      activated, although its retry time may have come. */
  lemma {:induction false} DeferredNeverRetried(s: State, run: seq<Event>, id: Id)
    requires IsRun(s, run) && FinishedOrDeferred(s, id)
    requires forall i :: 0 <= i < |run| ==> !FailsJob(run[i], id)
    ensures FinishedOrDeferred(After(s, run), id) && After(s, run).past.activated[id] == s.past.activated[id]
    decreases |run|
  {
    if run != [] {
      ParkedExact(s, run[0], id);
      assert !FailsJob(run[0], id);
      DeferredNeverRetried(Apply(s, run[0]), run[1..], id);
    }
  }

  /** `FailJob` parks the job in every case; retries and backoff only choose between FAILED and DEFERRED. */
  lemma FailParks(s: State, id: Id, left: int, backoff: int, now: int)
    requires id in s.jobs
    ensures var z := Apply(s, Fail(id, left, backoff, now));
      Parked(z, id) && (z.jobs[id].status == Deferred <==> left > 0 && backoff > 0)
  {
  }

  // ----- Completion -----

  /** A step that takes a COMPLETED job out of its state. */
  predicate Reopens(s: State, e: Event, id: Id) {
    && id in s.jobs && s.jobs[id].status == Completed
    && (e.Fail? || e.CompleteWithError? || e.ThrowJobError?) && e.id == id
  }

  /** Completion is not final: a COMPLETED job stays so exactly until it is failed or ended with an error. */
  lemma CompletedExact(s: State, e: Event, id: Id)
    requires Enabled(s, e) && id in s.jobs && s.jobs[id].status == Completed
    ensures id in Apply(s, e).jobs && (Apply(s, e).jobs[id].status == Completed <==> !Reopens(s, e, id))
  {
    ParkedExact(s, e, id);
  }

  predicate NeverReopened(s: State, run: seq<Event>, id: Id)
    requires IsRun(s, run)
    decreases |run|
  {
    run != [] ==> !Reopens(s, run[0], id) && NeverReopened(Apply(s, run[0]), run[1..], id)
  }

  /** The job is counted as completed exactly while it is COMPLETED. */
  predicate CompletedOnce(s: State, id: Id) {
    s.past.completed[id] == if id in s.jobs && s.jobs[id].status == Completed then 1 else 0
  }

  lemma StepCompletesOnce(s: State, e: Event, id: Id)
    requires Enabled(s, e) && CompletedOnce(s, id) && !Reopens(s, e, id)
    ensures CompletedOnce(Apply(s, e), id)
  {
    if id in s.jobs && s.jobs[id].status == Completed {
      CompletedExact(s, e, id);
    }
  }

  lemma {:induction false} RunCompletesOnce(s: State, run: seq<Event>, id: Id)
    requires IsRun(s, run) && CompletedOnce(s, id) && NeverReopened(s, run, id)
    ensures CompletedOnce(After(s, run), id)
    decreases |run|
  {
    if run != [] {
      StepCompletesOnce(s, run[0], id);
      RunCompletesOnce(Apply(s, run[0]), run[1..], id);
    }
  }

  /** Over every run in which no completed job is reopened, a job completes at most once. */
  lemma CompletesAtMostOnce(run: seq<Event>, id: Id)
    requires IsRun(EMPTY, run) && NeverReopened(EMPTY, run, id)
    ensures After(EMPTY, run).past.completed[id] <= 1
  {
    RunCompletesOnce(EMPTY, run, id);
  }

  /** A completed job that is failed with retries, updated and activated again completes again. */
  lemma ReopenedCompletesAgain(s: State, id: Id, worker: string, expiry: int, order: seq<Id>) returns (run: seq<Event>)
    requires id in s.jobs && s.jobs[id].status == Completed && Lists(order, s.jobs)
    requires forall k :: k in s.jobs ==> s.jobs[k].status != Pending
    ensures IsRun(s, run) && |run| == 4
    ensures After(s, run).past.completed[id] == s.past.completed[id] + 1
  {
    var pending := s.(jobs := s.jobs[id := s.jobs[id].(status := Pending, retries := 1)]);
    var e := Activate("", worker, 1, expiry, order);
    OnlyPendingTaken(pending, id, worker, expiry, order);
    RunStep(Apply(pending, e), Complete(id), []);
    RunStep(pending, e, [Complete(id)]);
    var failed := Apply(s, Fail(id, 1, 0, 0));
    FailedThenPending(s, id);
    RunStep(failed, UpdateRetries(id, 1), [e] + [Complete(id)]);
    run := [Fail(id, 1, 0, 0)] + ([UpdateRetries(id, 1)] + ([e] + [Complete(id)]));
    RunStep(s, Fail(id, 1, 0, 0), [UpdateRetries(id, 1)] + ([e] + [Complete(id)]));
  }

  lemma FailedThenPending(s: State, id: Id)
    requires id in s.jobs && s.jobs[id].status == Completed
    ensures Apply(Apply(s, Fail(id, 1, 0, 0)), UpdateRetries(id, 1))
         == s.(jobs := s.jobs[id := s.jobs[id].(status := Pending, retries := 1)])
  {
  }

  lemma RunStep(s: State, e: Event, rest: seq<Event>)
    requires Enabled(s, e) && IsRun(Apply(s, e), rest)
    ensures IsRun(s, [e] + rest) && After(s, [e] + rest) == After(Apply(s, e), rest)
    ensures rest == [] ==> [e] + rest == [e]
  {
    assert ([e] + rest)[1..] == rest;
  }

  lemma OnlyPendingTaken(s: State, id: Id, worker: string, expiry: int, order: seq<Id>)
    requires Lists(order, s.jobs) && id in s.jobs && s.jobs[id].status == Pending
    requires forall k :: k in s.jobs && k != id ==> s.jobs[k].status != Pending
    ensures var z := Apply(s, Activate("", worker, 1, expiry, order));
      id in z.jobs && z.jobs[id].status == Running && z.past.completed == s.past.completed
  {
    var all := Listed(order, s.jobs, "", Pending, 0);
    ListedFindsAll(order, s.jobs, "", Pending, id);
    ListedIsPrefix(order, s.jobs, "", Pending, 1);
    assert all[0] in all;
    assert Taken(order, s.jobs, "", 1)[0] == all[0];
  }

  // ----- Activation -----

  /** A worker gets pending jobs of its type only, no more than it asked for (one if it asked for none), and whatever
      is left pending is left because the limit was reached. */
  lemma ActivationTakes(s: State, kind: string, worker: string, maxJobs: int, expiry: int, order: seq<Id>)
    requires Enabled(s, Activate(kind, worker, maxJobs, expiry, order))
    ensures var z, ids := Apply(s, Activate(kind, worker, maxJobs, expiry, order)), Taken(order, s.jobs, kind, maxJobs);
      && |ids| <= (if maxJobs > 0 then maxJobs else 1)
      && (forall id :: id in ids ==> Matches(s.jobs[id], kind, Pending))
      && (forall id :: id in ids ==>
            z.jobs[id] == Job(s.jobs[id].kind, Running, worker, s.jobs[id].retries, Some(expiry)))
      && (forall id :: id in s.jobs && id !in ids ==> z.jobs[id] == s.jobs[id])
      && (forall id :: id in z.jobs && Matches(z.jobs[id], kind, Pending) ==>
            |ids| == if maxJobs > 0 then maxJobs else 1)
  {
    var all := Listed(order, s.jobs, kind, Pending, 0);
    var z, ids := Apply(s, Activate(kind, worker, maxJobs, expiry, order)), Taken(order, s.jobs, kind, maxJobs);
    if maxJobs > 0 {
      ListedIsPrefix(order, s.jobs, kind, Pending, maxJobs);
    }
    forall id | id in z.jobs && Matches(z.jobs[id], kind, Pending)
      ensures |ids| == if maxJobs > 0 then maxJobs else 1
    {
      assert id !in ids && Matches(s.jobs[id], kind, Pending);
      ListedFindsAll(order, s.jobs, kind, Pending, id);
      if maxJobs <= 0 {
        ListedUnlimited(order, s.jobs, kind, Pending, maxJobs);
      }
    }
  }

  /** A limit of zero or less takes one job as soon as one is pending. */
  lemma ZeroLimitTakesOne(s: State, kind: string, maxJobs: int, order: seq<Id>, id: Id)
    requires Lists(order, s.jobs) && maxJobs <= 0 && id in s.jobs && Matches(s.jobs[id], kind, Pending)
    ensures |Taken(order, s.jobs, kind, maxJobs)| == 1
  {
    ListedUnlimited(order, s.jobs, kind, Pending, maxJobs);
    ListedFindsAll(order, s.jobs, kind, Pending, id);
  }

  lemma {:induction false} ListedUnlimited(order: seq<Id>, jobs: map<Id, Job>, kind: string, status: Status, limit: int)
    requires Distinct(order) && (forall id :: id in order ==> id in jobs) && limit <= 0
    ensures Listed(order, jobs, kind, status, limit) == Listed(order, jobs, kind, status, 0)
    decreases |order|
  {
    if order != [] {
      ListedUnlimited(order[..|order| - 1], jobs, kind, status, limit);
    }
  }
}
