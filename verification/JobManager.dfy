/** `JobManager`: the job life cycle over a store it updates in place. */
module JobManager {
  import opened Logic
  import opened JobLeases

  class Manager {
    var jobs: map<Id, Job>
    ghost var past: History

    ghost function View(): State
      reads this
    {
      State(jobs, past)
    }

    /** Every job but one is as it was. */
    twostate predicate OthersKept(id: Id)
      reads this
    {
      forall k :: k != id ==> (k in jobs <==> k in old(jobs)) && (k in jobs ==> jobs[k] == old(jobs)[k])
    }

    /** The job is ended with an error and otherwise as it was; it is withdrawn from its worker if it was running. */
    twostate predicate EndedWithError(id: Id)
      reads this
    {
      && OthersKept(id) && id in jobs && id in old(jobs)
      && jobs[id].status == ErrorThrown && jobs[id].(status := old(jobs)[id].status) == old(jobs)[id]
      && past.withdrawn[id] == old(past.withdrawn)[id] + (if old(jobs)[id].status == Running then 1 else 0)
    }

    constructor ()
      ensures View() == EMPTY
    {
      jobs, past := map[], EMPTY.past;
    }

    method CreateJob(id: Id, kind: string, retries: int)
      requires Enabled(View(), Create(id, kind, retries))
      modifies this
      ensures View() == Apply(old(View()), Create(id, kind, retries))
      ensures id in jobs && Matches(jobs[id], kind, Pending) && jobs[id].lease == None && jobs[id].retries == retries
      ensures OthersKept(id) && past == old(past)
    {
      jobs := jobs[id := Job(kind, Pending, "", retries, None)];
    }

    /** The store's listing: the matching jobs in key order, up to the limit. */
    method ListJobsByType(kind: string, status: Status, limit: int, order: seq<Id>) returns (ids: seq<Id>)
      requires Lists(order, jobs)
      ensures ids == Listed(order, jobs, kind, status, limit)
    {
      ids := [];
      for i := 0 to |order|
        invariant ids == Listed(order[..i], jobs, kind, status, limit)
      {
        assert order[..i + 1][..i] == order[..i];
        if (limit <= 0 || |ids| < limit) && Matches(jobs[order[i]], kind, status) {
          ids := ids + [order[i]];
        }
      }
      assert order[..|order|] == order;
    }

    method ActivateJobs(kind: string, worker: string, maxJobs: int, expiry: int,
        order: seq<Id>) returns (taken: seq<Id>)
      requires Enabled(View(), Activate(kind, worker, maxJobs, expiry, order))
      modifies this
      ensures View() == Apply(old(View()), Activate(kind, worker, maxJobs, expiry, order))
      ensures taken == Taken(order, old(jobs), kind, maxJobs)
    {
      var listed := ListJobsByType(kind, Pending, maxJobs, order);
      var n := StartListed(listed, worker, maxJobs, expiry);
      taken := listed[..n];
      StartedFirstAll(old(View()), listed, n, worker, expiry);
      assert n == |listed| ==> taken == listed;
    }

    /** The loop over the listed jobs: it stops once it has `maxJobs` of them, but only looks after taking one. */
    method StartListed(listed: seq<Id>, worker: string, maxJobs: int, expiry: int) returns (n: nat)
      requires Distinct(listed) && (maxJobs > 0 ==> |listed| <= maxJobs)
      requires forall id :: id in listed ==> id in jobs && jobs[id].status == Pending
      modifies this
      ensures n == if maxJobs <= 0 && |listed| > 1 then 1 else |listed|
      ensures View() == StartedFirst(old(View()), listed, n, worker, expiry)
    {
      n := 0;
      while n < |listed|
        invariant n <= |listed| && View() == StartedFirst(old(View()), listed, n, worker, expiry)
        invariant maxJobs <= 0 ==> n == 0
      {
        var id := listed[n];
        StartedFirstKeeps(old(View()), listed, n, n, worker, expiry);
        var job := jobs[id];
        if job.status == Pending {
          jobs := jobs[id := job.Started(worker, expiry)];
          past := past.(activated := past.activated + multiset{id});
          n := n + 1;
          if n >= maxJobs {
            break;
          }
        }
      }
    }

    method CompleteJob(id: Id) returns (ok: bool)
      modifies this
      ensures View() == Apply(old(View()), Complete(id))
      ensures ok <==> id in old(jobs) && old(jobs)[id].status == Running
    {
      if id !in jobs || jobs[id].status != Running {
        return false;
      }
      jobs := jobs[id := jobs[id].(status := Completed)];
      past := past.(completed := past.completed + multiset{id});
      return true;
    }

    /** Saving a job that no longer runs. */
    method Save(id: Id, job: Job)
      requires id in jobs && job.status != Running
      modifies this
      ensures View() == Withdraw(old(View()), id, job)
    {
      if jobs[id].status == Running {
        past := past.(withdrawn := past.withdrawn + multiset{id});
      }
      jobs := jobs[id := job];
    }

    method CompleteJobWithBPMNError(id: Id) returns (ok: bool)
      modifies this
      ensures View() == Apply(old(View()), CompleteWithError(id)) && ok == (id in old(jobs))
      ensures if ok then EndedWithError(id) else jobs == old(jobs) && past == old(past)
    {
      ok := id in jobs;
      if ok {
        Save(id, jobs[id].(status := ErrorThrown));
      }
    }

    method FailJob(id: Id, left: int, backoff: int, now: int) returns (ok: bool)
      modifies this
      ensures View() == Apply(old(View()), Fail(id, left, backoff, now)) && ok == (id in old(jobs))
    {
      ok := id in jobs;
      if ok {
        var job := jobs[id].(status := Failed, retries := left);
        var canRetry := job.status == Failed && job.retries > 0;
        if canRetry && backoff > 0 {
          job := job.(status := Deferred, lease := Some(now + backoff));
        }
        Save(id, job);
      }
    }

    method UpdateJobRetries(id: Id, left: int) returns (ok: bool)
      modifies this
      ensures View() == Apply(old(View()), UpdateRetries(id, left)) && ok == (id in old(jobs))
    {
      ok := id in jobs;
      if ok {
        var job := jobs[id].(retries := left);
        if job.status == Failed && left > 0 {
          job := job.(status := Pending);
        }
        jobs := jobs[id := job];
      }
    }

    method CancelJob(id: Id) returns (ok: bool)
      modifies this
      ensures View() == Apply(old(View()), Cancel(id)) && ok == (id in old(jobs) && !old(jobs)[id].IsCompleted())
    {
      ok := id in jobs && !jobs[id].IsCompleted();
      if ok {
        Save(id, jobs[id].(status := Canceled));
      }
    }

    method UpdateJobTimeout(id: Id, expiry: int) returns (ok: bool)
      modifies this
      ensures View() == Apply(old(View()), UpdateTimeout(id, expiry)) && ok == (id in old(jobs))
      ensures OthersKept(id) && past == old(past) && (id in jobs <==> ok)
      ensures ok ==> jobs[id].(lease := old(jobs)[id].lease) == old(jobs)[id]
      ensures ok && old(jobs)[id].status == Running && old(jobs)[id].lease.Some? ==>
        forall now :: jobs[id].Expired(now) <==> now > expiry
      ensures ok && !(old(jobs)[id].status == Running && old(jobs)[id].lease.Some?) ==> jobs[id] == old(jobs)[id]
    {
      ok := id in jobs;
      if ok && jobs[id].status == Running && jobs[id].lease.Some? {
        jobs := jobs[id := jobs[id].(lease := Some(expiry))];
      }
    }

    method ThrowJobErrorFor(id: Id) returns (ok: bool)
      modifies this
      ensures View() == Apply(old(View()), ThrowJobError(id)) && ok == (id in old(jobs))
      ensures if ok then EndedWithError(id) else jobs == old(jobs) && past == old(past)
    {
      ok := id in jobs;
      if ok {
        Save(id, jobs[id].(status := ErrorThrown));
      }
    }

    method PerformCleanup(now: int, order: seq<Id>) returns (expiredCount: nat)
      requires Enabled(View(), Cleanup(now, order))
      modifies this
      ensures View() == Apply(old(View()), Cleanup(now, order))
      ensures expiredCount == |past.expired| - |old(past.expired)|
    {
      var listed := ListJobsByType("", Running, CLEANUP_LIMIT, order);
      expiredCount := ReleaseListed(listed, now);
      ReleasedFirstAll(old(View()), listed, |listed|, now);
      assert listed[..|listed|] == listed;
    }

    /** The loop over the listed running jobs. */
    method ReleaseListed(listed: seq<Id>, now: int) returns (expiredCount: nat)
      requires forall id :: id in listed ==> id in jobs
      modifies this
      ensures View() == ReleasedFirst(old(View()), listed, |listed|, now)
      ensures expiredCount == |past.expired| - |old(past.expired)|
    {
      expiredCount := 0;
      for i := 0 to |listed|
        invariant View() == ReleasedFirst(old(View()), listed, i, now)
        invariant expiredCount == |past.expired| - |old(past.expired)|
      {
        var id := listed[i];
        if jobs[id].Expired(now) {
          jobs := jobs[id := jobs[id].Released()];
          past := past.(expired := past.expired + multiset{id});
          expiredCount := expiredCount + 1;
        }
      }
    }
  }
}
