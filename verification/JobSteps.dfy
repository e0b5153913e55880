/** Every step of the job machine in full, field by field: which job it saves and how, what the history gains, and that
    nothing else changes. None of these statements goes through the operations on jobs themselves. */
module JobSteps {
  import opened Logic
  import opened JobLeases

  /** Where a step has ended an activation, the history counts it. */
  function Withdrawn(s: State, j: Job, id: Id): History {
    History(s.past.activated, s.past.completed, s.past.expired,
      if j.status == Running then s.past.withdrawn + multiset{id} else s.past.withdrawn)
  }

  /** A new job is pending, with no worker and no lease. */
  lemma CreateStep(s: State, id: Id, kind: string, retries: int)
    requires Enabled(s, Create(id, kind, retries))
    ensures Apply(s, Create(id, kind, retries)) == State(s.jobs[id := Job(kind, Pending, "", retries, None)], s.past)
  {
  }

  /** A running job completes and keeps its worker, retries and lease; no other job can be completed. */
  lemma CompleteStep(s: State, id: Id)
    ensures Apply(s, Complete(id)) ==
      if id in s.jobs && s.jobs[id].status == Running then
        var j := s.jobs[id];
        State(s.jobs[id := Job(j.kind, Completed, j.worker, j.retries, j.lease)],
          History(s.past.activated, s.past.completed + multiset{id}, s.past.expired, s.past.withdrawn))
      else s
  {
  }

  /** A failed job gets the given retries. It is deferred until the backoff is over when both are positive, and FAILED
      otherwise, keeping whatever lease it had. Its status before does not matter. */
  lemma FailStep(s: State, id: Id, left: int, backoff: int, now: int)
    ensures Apply(s, Fail(id, left, backoff, now)) ==
      if id !in s.jobs then s
      else
        var j, later := s.jobs[id], left > 0 && backoff > 0;
        var failed := Job(j.kind, if later then Deferred else JobLeases.Failed, j.worker, left,
          if later then Some(now + backoff) else j.lease);
        State(s.jobs[id := failed], Withdrawn(s, j, id))
  {
  }

  /** New retries make a FAILED job pending if they are positive, and change no other status. */
  lemma RetriesStep(s: State, id: Id, left: int)
    ensures Apply(s, UpdateRetries(id, left)) ==
      if id !in s.jobs then s
      else
        var j := s.jobs[id];
        var status := if j.status == JobLeases.Failed && left > 0 then Pending else j.status;
        State(s.jobs[id := Job(j.kind, status, j.worker, left, j.lease)], s.past)
  {
  }

  /** A job is canceled unless it is COMPLETED, FAILED, CANCELED or ended with an error. */
  lemma CancelStep(s: State, id: Id)
    ensures Apply(s, Cancel(id)) ==
      if id !in s.jobs || s.jobs[id].status == Completed || s.jobs[id].status == JobLeases.Failed
        || s.jobs[id].status == Canceled || s.jobs[id].status == ErrorThrown then s
      else
        var j := s.jobs[id];
        State(s.jobs[id := Job(j.kind, Canceled, j.worker, j.retries, j.lease)], Withdrawn(s, j, id))
  {
  }

  /** Both ways of ending a job with a BPMN error do the same; throwing the error alone changes nothing. */
  lemma ErrorStep(s: State, id: Id)
    ensures Apply(s, CompleteWithError(id)) ==
      if id !in s.jobs then s
      else
        var j := s.jobs[id];
        State(s.jobs[id := Job(j.kind, ErrorThrown, j.worker, j.retries, j.lease)], Withdrawn(s, j, id))
    ensures Apply(s, ThrowJobError(id)) == Apply(s, CompleteWithError(id)) && Apply(s, ThrowError(id)) == s
  {
  }

  /** A new timeout replaces the lease of a running job that has one. */
  lemma TimeoutStep(s: State, id: Id, expiry: int)
    ensures Apply(s, UpdateTimeout(id, expiry)) ==
      if id in s.jobs && s.jobs[id].status == Running && s.jobs[id].lease.Some? then
        var j := s.jobs[id];
        State(s.jobs[id := Job(j.kind, Running, j.worker, j.retries, Some(expiry))], s.past)
      else s
  {
  }

  // ----- Listings -----

  /** Job `i` in key order has the type, or any if none is asked for, and the status. */
  predicate Wanted(order: seq<Id>, jobs: map<Id, Job>, kind: string, status: Status, i: nat)
    requires i < |order| && forall id :: id in order ==> id in jobs
  {
    (kind == "" || jobs[order[i]].kind == kind) && jobs[order[i]].status == status
  }

  /** How many of the first `n` jobs are wanted. */
  function WantedCount(order: seq<Id>, jobs: map<Id, Job>, kind: string, status: Status, n: nat): nat
    requires n <= |order| && forall id :: id in order ==> id in jobs
  {
    if n == 0 then 0
    else WantedCount(order, jobs, kind, status, n - 1) + if Wanted(order, jobs, kind, status, n - 1) then 1 else 0
  }

  lemma {:induction false} WantedPrefix(order: seq<Id>, jobs: map<Id, Job>, kind: string, status: Status, k: nat,
      n: nat)
    requires n <= k <= |order| && forall id :: id in order ==> id in jobs
    ensures WantedCount(order[..k], jobs, kind, status, n) == WantedCount(order, jobs, kind, status, n)
  {
    if n > 0 {
      WantedPrefix(order, jobs, kind, status, k, n - 1);
    }
  }

  lemma {:induction false} ListedLength(order: seq<Id>, jobs: map<Id, Job>, kind: string, status: Status, limit: int)
    requires Distinct(order) && forall id :: id in order ==> id in jobs
    ensures var n := WantedCount(order, jobs, kind, status, |order|);
      |Listed(order, jobs, kind, status, limit)| == if limit > 0 && n > limit then limit else n
    decreases |order|
  {
    if order != [] {
      ListedLength(order[..|order| - 1], jobs, kind, status, limit);
      WantedPrefix(order, jobs, kind, status, |order| - 1, |order| - 1);
    }
  }

  lemma {:induction false} ListedGrows(order: seq<Id>, jobs: map<Id, Job>, kind: string, status: Status, limit: int,
      k: nat)
    requires Distinct(order) && (forall id :: id in order ==> id in jobs) && k <= |order|
    ensures Listed(order[..k], jobs, kind, status, limit) <= Listed(order, jobs, kind, status, limit)
    decreases |order|
  {
    if k == |order| {
      assert order[..k] == order;
    } else {
      var init := order[..|order| - 1];
      assert init[..k] == order[..k];
      ListedGrows(init, jobs, kind, status, limit, k);
    }
  }

  lemma ListedLast(order: seq<Id>, jobs: map<Id, Job>, kind: string, status: Status, limit: int)
    requires Distinct(order) && (forall id :: id in order ==> id in jobs) && order != []
    requires Wanted(order, jobs, kind, status, |order| - 1)
    requires limit <= 0 || WantedCount(order, jobs, kind, status, |order| - 1) < limit
    ensures var n, ids := WantedCount(order, jobs, kind, status, |order| - 1), Listed(order, jobs, kind, status, limit);
      n < |ids| && ids[n] == order[|order| - 1]
  {
    ListedLength(order[..|order| - 1], jobs, kind, status, limit);
    WantedPrefix(order, jobs, kind, status, |order| - 1, |order| - 1);
  }

  lemma ListedAt(order: seq<Id>, jobs: map<Id, Job>, kind: string, status: Status, limit: int, i: nat)
    requires Distinct(order) && forall id :: id in order ==> id in jobs
    requires i < |order| && Wanted(order, jobs, kind, status, i)
    requires limit <= 0 || WantedCount(order, jobs, kind, status, i) < limit
    ensures var n, ids := WantedCount(order, jobs, kind, status, i), Listed(order, jobs, kind, status, limit);
      n < |ids| && ids[n] == order[i]
  {
    ListedThere(order, order[..i + 1], jobs, kind, status, limit, i);
    ListedGrows(order, jobs, kind, status, limit, i + 1);
  }

  lemma ListedThere(order: seq<Id>, seen: seq<Id>, jobs: map<Id, Job>, kind: string, status: Status, limit: int, i: nat)
    requires Distinct(order) && (forall id :: id in order ==> id in jobs) && i < |order| && seen == order[..i + 1]
    requires Wanted(order, jobs, kind, status, i)
    requires limit <= 0 || WantedCount(order, jobs, kind, status, i) < limit
    ensures Distinct(seen) && forall id :: id in seen ==> id in jobs
    ensures var n, ids := WantedCount(order, jobs, kind, status, i), Listed(seen, jobs, kind, status, limit);
      n < |ids| && ids[n] == order[i]
  {
    assert |seen| == i + 1 && seen[i] == order[i];
    assert WantedCount(seen, jobs, kind, status, i) == WantedCount(order, jobs, kind, status, i) by {
      WantedPrefix(order, jobs, kind, status, i + 1, i);
    }
    assert Wanted(seen, jobs, kind, status, i);
    ListedLast(seen, jobs, kind, status, limit);
  }

  /** A listing has the wanted jobs in key order, all of them or as many as the limit allows, and nothing else: the
      place of a job in it is the number of wanted jobs before it. */
  lemma ListedExact(order: seq<Id>, jobs: map<Id, Job>, kind: string, status: Status, limit: int)
    requires Distinct(order) && forall id :: id in order ==> id in jobs
    ensures var n := WantedCount(order, jobs, kind, status, |order|);
      |Listed(order, jobs, kind, status, limit)| == if limit > 0 && n > limit then limit else n
    ensures forall i :: 0 <= i < |order| && Wanted(order, jobs, kind, status, i) ==>
      var n, ids := WantedCount(order, jobs, kind, status, i), Listed(order, jobs, kind, status, limit);
      limit <= 0 || n < limit ==> n < |ids| && ids[n] == order[i]
  {
    ListedLength(order, jobs, kind, status, limit);
    forall i | 0 <= i < |order| && Wanted(order, jobs, kind, status, i)
      ensures var n, ids := WantedCount(order, jobs, kind, status, i), Listed(order, jobs, kind, status, limit);
        limit <= 0 || n < limit ==> n < |ids| && ids[n] == order[i]
    {
      if limit <= 0 || WantedCount(order, jobs, kind, status, i) < limit {
        ListedAt(order, jobs, kind, status, limit, i);
      }
    }
  }

  // ----- Activation and cleanup -----

  /** Which jobs an activation takes: of the pending jobs of the type in key order, as many as asked for, and the first
      one if none or fewer are asked for. */
  lemma TakenExact(order: seq<Id>, jobs: map<Id, Job>, kind: string, maxJobs: int)
    requires Distinct(order) && forall id :: id in order ==> id in jobs
    ensures var all, room := Listed(order, jobs, kind, Pending, 0), if maxJobs > 0 then maxJobs else 1;
      Taken(order, jobs, kind, maxJobs) == if |all| <= room then all else all[..room]
  {
    if maxJobs > 0 {
      ListedIsPrefix(order, jobs, kind, Pending, maxJobs);
    } else {
      ListedUnlimited(order, jobs, kind, Pending, maxJobs);
    }
  }

  /** The job is among the first 1000 running jobs in key order and its lease lies before `now`. */
  predicate Overran(s: State, now: int, order: seq<Id>, id: Id)
    requires Lists(order, s.jobs)
  {
    var running := Listed(order, s.jobs, "", Running, 0);
    exists i :: 0 <= i < |running| && i < 1000 && running[i] == id
      && s.jobs[id].lease.Some? && s.jobs[id].lease.value < now
  }

  /** A cleanup makes exactly the jobs that have overrun pending again, without worker and lease, and counts them as
      expired. No other job changes. */
  lemma CleanupStep(s: State, now: int, order: seq<Id>)
    requires Enabled(s, Cleanup(now, order))
    ensures var z := Apply(s, Cleanup(now, order));
      && z.jobs.Keys == s.jobs.Keys
      && (forall id :: id in s.jobs ==> var j := s.jobs[id];
            z.jobs[id] == if Overran(s, now, order, id) then Job(j.kind, Pending, "", j.retries, None) else j)
      && z.past == s.past.(expired := s.past.expired + multiset(set id | id in s.jobs && Overran(s, now, order, id)))
  {
    var seen := Listed(order, s.jobs, "", Running, CLEANUP_LIMIT);
    forall id | id in s.jobs
      ensures id in ExpiredIds(s.jobs, seen, now) <==> Overran(s, now, order, id)
    {
      OverranExact(s, now, order, id);
    }
    assert ExpiredIds(s.jobs, seen, now) == set id | id in s.jobs && Overran(s, now, order, id);
  }

  lemma OverranExact(s: State, now: int, order: seq<Id>, id: Id)
    requires Lists(order, s.jobs) && id in s.jobs
    ensures id in ExpiredIds(s.jobs, Listed(order, s.jobs, "", Running, CLEANUP_LIMIT), now) <==>
      Overran(s, now, order, id)
  {
    var running, seen := Listed(order, s.jobs, "", Running, 0), Listed(order, s.jobs, "", Running, CLEANUP_LIMIT);
    ListedIsPrefix(order, s.jobs, "", Running, CLEANUP_LIMIT);
    if id in seen && s.jobs[id].Expired(now) {
      var i :| 0 <= i < |seen| && seen[i] == id;
      assert running[i] == id;
    }
    if Overran(s, now, order, id) {
      var i :| 0 <= i < |running| && i < 1000 && running[i] == id
        && s.jobs[id].lease.Some? && s.jobs[id].lease.value < now;
      assert seen[i] == id;
    }
  }

  /** A released job is not lost: the next activation of its type that has room for all pending jobs takes it. */
  lemma ReleasedIsTaken(s: State, now: int, order: seq<Id>, id: Id, worker: string, maxJobs: int, expiry: int)
    requires Enabled(s, Cleanup(now, order)) && id in s.jobs && Overran(s, now, order, id)
    requires |Listed(order, Apply(s, Cleanup(now, order)).jobs, s.jobs[id].kind, Pending, 0)| <= maxJobs
    ensures var j, e := s.jobs[id], Activate(s.jobs[id].kind, worker, maxJobs, expiry, order);
      var z := Apply(Apply(s, Cleanup(now, order)), e);
      id in z.jobs && z.jobs[id] == Job(j.kind, Running, worker, j.retries, Some(expiry))
  {
    var z, j := Apply(s, Cleanup(now, order)), s.jobs[id];
    CleanupStep(s, now, order);
    ListedFindsAll(order, z.jobs, j.kind, Pending, id);
    TakenExact(order, z.jobs, j.kind, maxJobs);
  }

  // ----- Every step can happen -----

  lemma {:induction false} KeysListed(jobs: map<Id, Job>, keys: set<Id>) returns (order: seq<Id>)
    requires keys <= jobs.Keys
    ensures Distinct(order) && forall id :: id in order <==> id in keys
    decreases |keys|
  {
    order := [];
    if keys != {} {
      var id :| id in keys;
      var rest := KeysListed(jobs, keys - {id});
      order := rest + [id];
    }
  }

  predicate Unknown(s: State, id: Id) {
    && id !in s.jobs && s.past.activated[id] == 0 && s.past.completed[id] == 0
    && s.past.expired[id] == 0 && s.past.withdrawn[id] == 0
  }

  /** In every state some key order lists the jobs, and with it every activation and cleanup is possible; a job can be
      created under an id that is neither stored nor mentioned, and every other step is always possible. */
  lemma StepsPossible(s: State) returns (order: seq<Id>)
    ensures forall kind, worker, maxJobs, expiry :: Enabled(s, Activate(kind, worker, maxJobs, expiry, order))
    ensures forall now :: Enabled(s, Cleanup(now, order))
    ensures forall id, kind, retries :: Unknown(s, id) ==> Enabled(s, Create(id, kind, retries))
    ensures forall e: Event :: !e.Create? && !e.Activate? && !e.Cleanup? ==> Enabled(s, e)
  {
    order := KeysListed(s.jobs, s.jobs.Keys);
  }
}
