/** The `jobs` table of agent/executor_queue.py, one method per SQL statement or transaction.
    A job is named by its row; times are seconds.
 */
module JobQueue {
  import opened Common

  datatype Status = Queued | Running | RetryScheduled | Success | Failed

  type Worker = nat

  datatype Job = Job(
    status: Status,
    attempts: nat,
    maxAttempts: int,
    createdAt: int,
    workerId: Option<Worker>,
    nextRetryAt: Option<int>)

  const BACKOFF: seq<int> := [60, 300, 900]

  /** The number of executions a job can have; even a job with no attempts allowed is run once. */
  function Allowed(job: Job): nat {
    if job.maxAttempts < 1 then 1 else job.maxAttempts
  }

  predicate Claimable(job: Job) {
    job.status == Queued || job.status == RetryScheduled
  }

  predicate Due(job: Job, now: int) {
    Claimable(job) && (job.nextRetryAt.None? || job.nextRetryAt.value <= now)
  }

  /** Row `i` is one the claiming SELECT may return: due, and none due was created earlier. */
  predicate EarliestDue(jobs: seq<Job>, now: int, i: nat) {
    && i < |jobs| && Due(jobs[i], now)
    && forall k :: 0 <= k < |jobs| && Due(jobs[k], now) ==> jobs[i].createdAt <= jobs[k].createdAt
  }

  function NewJob(maxAttempts: int, now: int): Job {
    Job(Queued, 0, maxAttempts, now, None, None)
  }

  function ClaimedBy(job: Job, w: Worker): Job {
    job.(status := Running, workerId := Some(w))
  }

  function MarkedDone(job: Job): Job {
    job.(status := Success, workerId := None, nextRetryAt := None)
  }

  /** The row after the failure UPDATE, computed from the attempts and limit read before it. */
  function MarkedFailed(job: Job, read: nat, limit: int, now: int): Job {
    var n := read + 1;
    if n < limit then
      job.(status := RetryScheduled, attempts := n, workerId := None,
           nextRetryAt := Some(now + BACKOFF[if n - 1 < |BACKOFF| - 1 then n - 1 else |BACKOFF| - 1]))
    else
      job.(status := Failed, attempts := n, workerId := None, nextRetryAt := None)
  }

  lemma {:induction false} SomeEarliest(jobs: seq<Job>, now: int, k: nat)
    requires k < |jobs| && Due(jobs[k], now)
    ensures exists i :: EarliestDue(jobs, now, i)
    decreases |jobs|
  {
    var front := jobs[..|jobs| - 1];
    var last := |jobs| - 1;
    if exists j :: 0 <= j < |front| && Due(front[j], now) {
      var j :| 0 <= j < |front| && Due(front[j], now);
      SomeEarliest(front, now, j);
      var i: nat :| EarliestDue(front, now, i);
      if Due(jobs[last], now) && jobs[last].createdAt < jobs[i].createdAt {
        EarliestInFull(jobs, now, i, last);
      } else {
        EarliestInFull(jobs, now, i, i);
      }
    } else {
      assert forall j :: 0 <= j < last ==> jobs[j] == front[j];
      assert EarliestDue(jobs, now, last);
    }
  }

  lemma EarliestInFull(jobs: seq<Job>, now: int, i: nat, best: nat)
    requires jobs != [] && EarliestDue(jobs[..|jobs| - 1], now, i)
    requires best < |jobs| && Due(jobs[best], now) && jobs[best].createdAt <= jobs[i].createdAt
    requires Due(jobs[|jobs| - 1], now) ==> jobs[best].createdAt <= jobs[|jobs| - 1].createdAt
    ensures EarliestDue(jobs, now, best)
  {
    var front := jobs[..|jobs| - 1];
    forall k | 0 <= k < |jobs| && Due(jobs[k], now)
      ensures jobs[best].createdAt <= jobs[k].createdAt
    {
      if k < |front| {
        assert front[k] == jobs[k];
      }
    }
  }

  class JobTable {
    var jobs: seq<Job>

    constructor ()
      ensures jobs == []
    {
      jobs := [];
    }

    method Enqueue(maxAttempts: int, now: int) returns (jobId: nat)
      modifies this
      ensures jobId == |old(jobs)| && jobs == old(jobs) + [NewJob(maxAttempts, now)]
    {
      jobId := |jobs|;
      jobs := jobs + [Job(Queued, 0, maxAttempts, now, None, None)];
    }

    /** The claiming transaction: SELECT the earliest due row, UPDATE it, COMMIT. */
    method FetchNext(w: Worker, now: int) returns (jobId: Option<nat>)
      modifies this
      ensures jobId.None? <==> forall k :: 0 <= k < |old(jobs)| ==> !Due(old(jobs)[k], now)
      ensures jobId.None? ==> jobs == old(jobs)
      ensures jobId.Some? ==>
        && EarliestDue(old(jobs), now, jobId.value)
        && jobs == old(jobs)[jobId.value := ClaimedBy(old(jobs)[jobId.value], w)]
    {
      jobId := SelectEarliest(now);
      if jobId.None? {
        return;
      }
      var i := jobId.value;
      jobs := jobs[i := jobs[i].(status := Running, workerId := Some(w))];
    }

    /** SELECT ... WHERE due ORDER BY created_at LIMIT 1: ties are broken arbitrarily. */
    method SelectEarliest(now: int) returns (row: Option<nat>)
      ensures row.None? <==> forall k :: 0 <= k < |jobs| ==> !Due(jobs[k], now)
      ensures row.Some? ==> EarliestDue(jobs, now, row.value)
    {
      if forall k :: 0 <= k < |jobs| ==> !Due(jobs[k], now) {
        return None;
      }
      ghost var k :| 0 <= k < |jobs| && Due(jobs[k], now);
      SomeEarliest(jobs, now, k);
      var i: nat :| i < |jobs| && EarliestDue(jobs, now, i);
      row := Some(i);
    }

    method MarkDone(jobId: nat)
      modifies this
      ensures jobs == if jobId < |old(jobs)| then old(jobs)[jobId := MarkedDone(old(jobs)[jobId])] else old(jobs)
    {
      if jobId < |jobs| {
        jobs := jobs[jobId := jobs[jobId].(status := Success, workerId := None, nextRetryAt := None)];
      }
    }

    /** First statement of the failure mark: read attempts and limit. */
    method ReadAttempts(jobId: nat) returns (row: Option<(nat, int)>)
      ensures row == if jobId < |jobs| then Some((jobs[jobId].attempts, jobs[jobId].maxAttempts)) else None
    {
      if jobId < |jobs| {
        row := Some((jobs[jobId].attempts, jobs[jobId].maxAttempts));
      } else {
        row := None;
      }
    }

    /** Second statement: write back what follows from the values read. */
    method WriteFailure(jobId: nat, read: nat, limit: int, now: int)
      modifies this
      ensures jobs == if jobId < |old(jobs)| then old(jobs)[jobId := MarkedFailed(old(jobs)[jobId], read, limit, now)]
                      else old(jobs)
    {
      if jobId < |jobs| {
        var attempts := read + 1;
        var row := jobs[jobId].(attempts := attempts, workerId := None);
        if attempts < limit {
          var idx := if attempts - 1 <= |BACKOFF| - 1 then attempts - 1 else |BACKOFF| - 1;
          row := row.(status := RetryScheduled, nextRetryAt := Some(now + BACKOFF[idx]));
        } else {
          row := row.(status := Failed, nextRetryAt := None);
        }
        jobs := jobs[jobId := row];
      }
    }
  }
}
