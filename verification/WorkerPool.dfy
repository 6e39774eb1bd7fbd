/** The worker pool of agent/executor_worker.py over the shared job table: every interleaving of
    claims, executions, marks, enqueues and drain polls, one statement or transaction a step.
 */
module WorkerPool {
  import opened Common
  import opened JobQueue

  /** Where a worker is in its loop: between jobs, executing one, or between the two statements
      of the failure mark with the values it read. */
  datatype Local = Idle | Executing(job: nat) | Marking(job: nat, read: nat, limit: int)

  /** `claims` and `failedRuns` count, per job, the claims so far and the executions that ended
      in failure; `stable` is the poller's count of consecutive empty polls. */
  datatype System = System(
    jobs: seq<Job>,
    workers: map<Worker, Local>,
    claims: seq<nat>,
    failedRuns: seq<nat>,
    stable: nat)

  datatype Event =
    | Enqueue(maxAttempts: int, now: int)
    | Claim(w: Worker, now: int, row: nat)
    | NoJob(w: Worker, now: int)
    | Succeed(w: Worker)
    | FailRead(w: Worker)
    | FailWrite(w: Worker, now: int)
    | Poll

  predicate At(s: System, w: Worker, l: Local) {
    w in s.workers && s.workers[w] == l
  }

  predicate Terminal(job: Job) {
    job.status == Success || job.status == Failed
  }

  predicate Drained(jobs: seq<Job>) {
    forall i :: 0 <= i < |jobs| ==> Terminal(jobs[i])
  }

  ghost predicate Enabled(s: System, e: Event) {
    match e
    case Enqueue(_, _) => true
    case Claim(w, now, row) => At(s, w, Idle) && row < |s.claims| && EarliestDue(s.jobs, now, row)
    case NoJob(w, now) => At(s, w, Idle) && forall k :: 0 <= k < |s.jobs| ==> !Due(s.jobs[k], now)
    case Succeed(w) => w in s.workers && s.workers[w].Executing? && s.workers[w].job < |s.jobs|
    case FailRead(w) =>
      && w in s.workers && s.workers[w].Executing?
      && s.workers[w].job < |s.jobs| && s.workers[w].job < |s.failedRuns|
    case FailWrite(w, _) => w in s.workers && s.workers[w].Marking? && s.workers[w].job < |s.jobs|
    case Poll => true
  }

  ghost function After(s: System, e: Event): System
    requires Enabled(s, e)
  {
    match e
    case Enqueue(m, now) =>
      s.(jobs := s.jobs + [NewJob(m, now)], claims := s.claims + [0], failedRuns := s.failedRuns + [0])
    case Claim(w, now, i) =>
      s.(jobs := s.jobs[i := ClaimedBy(s.jobs[i], w)],
         workers := s.workers[w := Executing(i)],
         claims := s.claims[i := s.claims[i] + 1])
    case NoJob(_, _) => s
    case Succeed(w) =>
      var i := s.workers[w].job;
      s.(jobs := s.jobs[i := MarkedDone(s.jobs[i])], workers := s.workers[w := Idle])
    case FailRead(w) =>
      var i := s.workers[w].job;
      s.(workers := s.workers[w := Marking(i, s.jobs[i].attempts, s.jobs[i].maxAttempts)],
         failedRuns := s.failedRuns[i := s.failedRuns[i] + 1])
    case FailWrite(w, now) =>
      var Marking(i, read, limit) := s.workers[w];
      s.(jobs := s.jobs[i := MarkedFailed(s.jobs[i], read, limit, now)], workers := s.workers[w := Idle])
    case Poll => s.(stable := if Drained(s.jobs) then s.stable + 1 else 0)
  }

  // ----- The invariant -----

  predicate Holds(s: System, w: Worker, i: nat) {
    w in s.workers && !s.workers[w].Idle? && s.workers[w].job == i
  }

  /** A worker is between the two statements of a failure mark of job `i`. */
  predicate MarkPending(s: System, i: nat) {
    && i < |s.jobs| && s.jobs[i].workerId.Some?
    && s.jobs[i].workerId.value in s.workers && s.workers[s.jobs[i].workerId.value].Marking?
  }

  predicate JobOk(s: System, i: nat)
    requires i < |s.jobs| && |s.claims| == |s.jobs| && |s.failedRuns| == |s.jobs|
  {
    var j := s.jobs[i];
    && (j.status == Running ==> j.workerId.Some? && Holds(s, j.workerId.value, i))
    && (j.status != Running ==> j.workerId.None?)
    && s.failedRuns[i] == j.attempts + (if MarkPending(s, i) then 1 else 0)
    && s.claims[i] == j.attempts + (if j.status == Running || j.status == Success then 1 else 0)
    && (j.status == Failed ==> j.attempts == Allowed(j))
    && (j.status != Failed ==> j.attempts < Allowed(j))
    && (j.status != Running && j.status != RetryScheduled ==> j.nextRetryAt.None?)
    && (j.status == RetryScheduled ==> j.nextRetryAt.Some?)
  }

  predicate WorkerOk(s: System, w: Worker)
    requires w in s.workers
  {
    match s.workers[w]
    case Idle => true
    case Executing(i) => i < |s.jobs| && s.jobs[i].status == Running && s.jobs[i].workerId == Some(w)
    case Marking(i, read, limit) =>
      && i < |s.jobs| && s.jobs[i].status == Running && s.jobs[i].workerId == Some(w)
      && read == s.jobs[i].attempts && limit == s.jobs[i].maxAttempts
  }

  ghost predicate Inv(s: System) {
    && |s.claims| == |s.jobs| && |s.failedRuns| == |s.jobs|
    && (forall i :: 0 <= i < |s.jobs| ==> JobOk(s, i))
    && (forall w :: w in s.workers ==> WorkerOk(s, w))
  }

  /** Steps of a worker on job `i` leave every other job's and worker's clauses alone. */
  lemma OthersUntouched(s: System, t: System, w: Worker, i: nat)
    requires Inv(s) && w in s.workers && i < |s.jobs|
    requires forall u :: u in s.workers && u != w ==> !Holds(s, u, i)
    requires Holds(s, w, i) || s.workers[w].Idle?
    requires |t.jobs| == |s.jobs| && |t.claims| == |s.claims| && |t.failedRuns| == |s.failedRuns|
    requires forall k :: 0 <= k < |s.jobs| && k != i ==>
               t.jobs[k] == s.jobs[k] && t.claims[k] == s.claims[k] && t.failedRuns[k] == s.failedRuns[k]
    requires t.workers.Keys == s.workers.Keys
    requires forall u :: u in s.workers && u != w ==> t.workers[u] == s.workers[u]
    ensures forall k :: 0 <= k < |s.jobs| && k != i ==> JobOk(t, k)
    ensures forall u :: u in t.workers && u != w ==> WorkerOk(t, u)
  {
    forall k | 0 <= k < |s.jobs| && k != i
      ensures JobOk(t, k)
    {
      assert JobOk(s, k);
      if s.jobs[k].workerId.Some? {
        assert Holds(s, s.jobs[k].workerId.value, k);
        assert s.jobs[k].workerId.value != w;
      }
    }
    forall u | u in t.workers && u != w
      ensures WorkerOk(t, u)
    {
      assert WorkerOk(s, u) && !Holds(s, u, i);
    }
  }

  /** At most one worker holds a job. */
  lemma OneHolder(s: System, u: Worker, w: Worker, i: nat)
    requires Inv(s) && Holds(s, u, i) && Holds(s, w, i)
    ensures u == w && i < |s.jobs| && s.jobs[i].status == Running
  {
    assert WorkerOk(s, u) && WorkerOk(s, w);
  }

  lemma HolderAlone(s: System, w: Worker)
    requires Inv(s) && w in s.workers && !s.workers[w].Idle?
    ensures var i := s.workers[w].job;
            Holds(s, w, i) && i < |s.jobs| && s.jobs[i].status == Running && JobOk(s, i) &&
            forall u :: u in s.workers && u != w ==> !Holds(s, u, i)
  {
    var i := s.workers[w].job;
    assert WorkerOk(s, w);
    forall u | u in s.workers && u != w
      ensures !Holds(s, u, i)
    {
      if Holds(s, u, i) {
        OneHolder(s, u, w, i);
      }
    }
  }

  lemma EnqueueKeepsInv(s: System, e: Event)
    requires Inv(s) && e.Enqueue?
    ensures Inv(After(s, e))
  {
    var t := After(s, e);
    forall i | 0 <= i < |t.jobs|
      ensures JobOk(t, i)
    {
      if i < |s.jobs| { assert JobOk(s, i); }
    }
    forall w | w in t.workers
      ensures WorkerOk(t, w)
    {
      assert WorkerOk(s, w);
    }
  }

  lemma ClaimKeepsInv(s: System, e: Event)
    requires Inv(s) && e.Claim? && Enabled(s, e)
    ensures Inv(After(s, e))
  {
    var t, i := After(s, e), e.row;
    assert JobOk(s, i);
    forall u | u in s.workers
      ensures !Holds(s, u, i)
    {
      assert WorkerOk(s, u);
    }
    OthersUntouched(s, t, e.w, i);
    assert JobOk(t, i);
  }

  lemma SucceedKeepsInv(s: System, e: Event)
    requires Inv(s) && e.Succeed? && Enabled(s, e)
    ensures Inv(After(s, e))
  {
    var t, i := After(s, e), s.workers[e.w].job;
    HolderAlone(s, e.w);
    assert WorkerOk(s, e.w);
    OthersUntouched(s, t, e.w, i);
    assert JobOk(t, i);
  }

  lemma FailReadKeepsInv(s: System, e: Event)
    requires Inv(s) && e.FailRead? && Enabled(s, e)
    ensures Inv(After(s, e))
  {
    var t, i := After(s, e), s.workers[e.w].job;
    HolderAlone(s, e.w);
    assert WorkerOk(s, e.w);
    OthersUntouched(s, t, e.w, i);
    assert JobOk(t, i);
  }

  lemma FailWriteKeepsInv(s: System, e: Event)
    requires Inv(s) && e.FailWrite? && Enabled(s, e)
    ensures Inv(After(s, e))
  {
    var t, i := After(s, e), s.workers[e.w].job;
    HolderAlone(s, e.w);
    assert WorkerOk(s, e.w);
    OthersUntouched(s, t, e.w, i);
    assert JobOk(t, i);
  }

  lemma PollKeepsInv(s: System, e: Event)
    requires Inv(s) && e.Poll?
    ensures Inv(After(s, e))
  {
    var t := After(s, e);
    forall i | 0 <= i < |t.jobs|
      ensures JobOk(t, i)
    {
      assert JobOk(s, i);
    }
    forall w | w in t.workers
      ensures WorkerOk(t, w)
    {
      assert WorkerOk(s, w);
    }
  }

  /** Every step of every worker keeps the invariant. */
  lemma StepKeepsInv(s: System, e: Event)
    requires Inv(s) && Enabled(s, e)
    ensures Inv(After(s, e))
  {
    match e
    case Enqueue(_, _) => EnqueueKeepsInv(s, e);
    case Claim(_, _, _) => ClaimKeepsInv(s, e);
    case NoJob(_, _) =>
    case Succeed(_) => SucceedKeepsInv(s, e);
    case FailRead(_) => FailReadKeepsInv(s, e);
    case FailWrite(_, _) => FailWriteKeepsInv(s, e);
    case Poll => PollKeepsInv(s, e);
  }

  // ----- Runs -----

  /** The events can happen in this order from `s`. */
  ghost predicate Runs(s: System, events: seq<Event>)
    decreases |events|
  {
    events == [] || (Enabled(s, events[0]) && Runs(After(s, events[0]), events[1..]))
  }

  ghost function End(s: System, events: seq<Event>): System
    requires Runs(s, events)
    decreases |events|
  {
    if events == [] then s else End(After(s, events[0]), events[1..])
  }

  ghost predicate Initial(s: System) {
    && s.jobs == [] && s.claims == [] && s.failedRuns == [] && s.stable == 0
    && forall w :: w in s.workers ==> s.workers[w] == Idle
  }

  lemma {:induction false} RunKeepsInv(s: System, events: seq<Event>)
    requires Inv(s) && Runs(s, events)
    ensures Inv(End(s, events))
    decreases |events|
  {
    if events != [] {
      StepKeepsInv(s, events[0]);
      RunKeepsInv(After(s, events[0]), events[1..]);
    }
  }

  /** Safety of every interleaving from an empty table: a running job is held by exactly one
      worker, the recorded attempts are the failed executions (one behind while a mark is between
      its two statements), no job is claimed more often than it is allowed, and a failed job
      has used up every execution it had; a job not running has no worker, and a time to wait for
      exactly if it is to be retried. */
  lemma QueueSafety(s: System, events: seq<Event>, i: nat)
    requires Initial(s) && Runs(s, events) && i < |End(s, events).jobs|
    ensures var t := End(s, events);
            && |t.claims| == |t.failedRuns| == |t.jobs|
            && (t.jobs[i].status == Running <==> exists w :: Holds(t, w, i))
            && (forall u, w :: Holds(t, u, i) && Holds(t, w, i) ==> u == w)
            && t.failedRuns[i] == t.jobs[i].attempts + (if MarkPending(t, i) then 1 else 0)
            && t.claims[i] <= Allowed(t.jobs[i])
            && (t.jobs[i].status == Failed ==> t.failedRuns[i] == Allowed(t.jobs[i]))
            && (t.jobs[i].status == Success ==> t.failedRuns[i] < Allowed(t.jobs[i]))
            && (t.jobs[i].status != Running ==>
                  t.jobs[i].workerId.None? && (t.jobs[i].nextRetryAt.Some? <==> t.jobs[i].status == RetryScheduled))
  {
    var t := End(s, events);
    assert Inv(s);
    RunKeepsInv(s, events);
    assert JobOk(t, i);
    if t.jobs[i].status == Running {
      assert Holds(t, t.jobs[i].workerId.value, i);
    }
    forall u, w | Holds(t, u, i) && Holds(t, w, i)
      ensures u == w
    {
      OneHolder(t, u, w, i);
    }
    forall w | Holds(t, w, i)
      ensures t.jobs[i].status == Running
    {
      OneHolder(t, w, w, i);
    }
  }

  // ----- What a run owes to its enqueues -----

  /** The enqueues of a run, in order: the rows they make are numbered alike. */
  function Enqueues(events: seq<Event>): (es: seq<Event>)
    ensures forall i :: 0 <= i < |es| ==> es[i].Enqueue?
  {
    if events == [] then []
    else (if events[0].Enqueue? then [events[0]] else []) + Enqueues(events[1..])
  }

  /** Limit and creation time of a row never change. */
  ghost predicate SameTerms(a: Job, b: Job) {
    a.maxAttempts == b.maxAttempts && a.createdAt == b.createdAt
  }

  lemma StepKeepsTerms(s: System, e: Event)
    requires Enabled(s, e)
    ensures |After(s, e).jobs| == |s.jobs| + (if e.Enqueue? then 1 else 0)
    ensures forall i :: 0 <= i < |s.jobs| ==> SameTerms(After(s, e).jobs[i], s.jobs[i])
    ensures e.Enqueue? ==> After(s, e).jobs[|s.jobs|].maxAttempts == e.maxAttempts && After(s, e).jobs[|s.jobs|].createdAt == e.now
  {
  }

  lemma {:induction false} TermsOnRun(s: System, events: seq<Event>, i: nat)
    requires Runs(s, events)
    ensures |End(s, events).jobs| == |s.jobs| + |Enqueues(events)|
    ensures i < |s.jobs| ==> SameTerms(End(s, events).jobs[i], s.jobs[i])
    ensures |s.jobs| <= i < |End(s, events).jobs| ==>
      var e, job := Enqueues(events)[i - |s.jobs|], End(s, events).jobs[i];
      job.maxAttempts == e.maxAttempts && job.createdAt == e.now
    decreases |events|
  {
    if events != [] {
      StepKeepsTerms(s, events[0]);
      TermsOnRun(After(s, events[0]), events[1..], i);
    }
  }

  /** The executions a job enqueued with limit `m` may have. */
  function Executions(m: int): nat {
    if m >= 1 then m else 1
  }

  /** From the events alone: job `i` is the one of the `i`th enqueue; it is claimed at most as often as
      that enqueue allows, at least once being allowed, and has failed for good exactly when as many of
      its executions have failed and no mark is pending. */
  lemma JobsAreEnqueues(s: System, events: seq<Event>, i: nat)
    requires Initial(s) && Runs(s, events)
    ensures var t, es := End(s, events), Enqueues(events);
            && |t.jobs| == |t.claims| == |t.failedRuns| == |es|
            && (i < |es| ==>
                  && t.jobs[i].createdAt == es[i].now && t.claims[i] <= Executions(es[i].maxAttempts)
                  && (t.jobs[i].status == Failed <==>
                        t.failedRuns[i] == Executions(es[i].maxAttempts) && !MarkPending(t, i)))
  {
    TermsOnRun(s, events, i);
    assert Inv(s);
    RunKeepsInv(s, events);
    if i < |Enqueues(events)| {
      QueueSafety(s, events, i);
      assert JobOk(End(s, events), i);
    }
  }

  /** A job claimed is one enqueued no later than any other that is due. */
  lemma ClaimsEarliest(s: System, events: seq<Event>, w: Worker, now: int, row: nat, k: nat)
    requires Initial(s) && Runs(s, events) && Enabled(End(s, events), Claim(w, now, row))
    requires k < |End(s, events).jobs| && Due(End(s, events).jobs[k], now)
    ensures row < |Enqueues(events)| && k < |Enqueues(events)|
    ensures Enqueues(events)[row].now <= Enqueues(events)[k].now
  {
    TermsOnRun(s, events, row);
    TermsOnRun(s, events, k);
  }

  /** Job `i`, if it was enqueued with limit `m`, has been claimed at most `m` times. */
  ghost predicate WithinLimit(s: System, events: seq<Event>, i: nat, m: int)
    requires Runs(s, events)
  {
    i < |Enqueues(events)| && i < |End(s, events).claims| && Enqueues(events)[i].maxAttempts == m ==>
      End(s, events).claims[i] <= m
  }

  /** No run claims a job of limit `m` more than `m` times. */
  ghost predicate LimitKept(m: int) {
    forall s, events, i: nat :: Initial(s) && Runs(s, events) ==> WithinLimit(s, events, i, m)
  }

  /** The limit of a job is kept on every run exactly when it is at least one: a job of a smaller
      limit is claimed and executed all the same. */
  lemma LimitKeptIff(m: int)
    ensures LimitKept(m) <==> m >= 1
  {
    if m >= 1 {
      forall s, events, i: nat | Initial(s) && Runs(s, events)
        ensures WithinLimit(s, events, i, m)
      {
        JobsAreEnqueues(s, events, i);
      }
    } else {
      ClaimedOnce(m);
    }
  }

  lemma ClaimedOnce(m: int)
    requires m < 1
    ensures !LimitKept(m)
  {
    var s := System([], map[0 := Idle], [], [], 0);
    var events := [Enqueue(m, 0), Claim(0, 0, 0)];
    var s1 := After(s, events[0]);
    assert Initial(s) && s1.jobs == [NewJob(m, 0)] && EarliestDue(s1.jobs, 0, 0);
    assert events[1..] == [Claim(0, 0, 0)] && events[1..][1..] == [];
    assert Runs(After(s1, events[1]), []);
    assert Runs(s1, events[1..]) && Runs(s, events);
    assert End(s, events) == End(s1, events[1..]) == End(After(s1, events[1]), events[1..][1..]);
    assert Enqueues(events[1..][1..]) == [] && Enqueues(events[1..]) == [] && Enqueues(events) == [events[0]];
    assert !WithinLimit(s, events, 0, m);
  }

  /** A finished job is never claimed, marked or changed again. */
  lemma {:induction false} TerminalIsFinal(s: System, events: seq<Event>, i: nat)
    requires Inv(s) && Runs(s, events)
    requires i < |s.jobs| && Terminal(s.jobs[i])
    ensures i < |End(s, events).jobs| && End(s, events).jobs[i] == s.jobs[i]
    ensures i < |End(s, events).claims| && End(s, events).claims[i] == s.claims[i]
    decreases |events|
  {
    if events != [] {
      var t := After(s, events[0]);
      TerminalStep(s, events[0], i);
      StepKeepsInv(s, events[0]);
      TerminalIsFinal(t, events[1..], i);
    }
  }

  lemma TerminalStep(s: System, e: Event, i: nat)
    requires Inv(s) && Enabled(s, e) && i < |s.jobs| && Terminal(s.jobs[i])
    ensures i < |After(s, e).jobs| && After(s, e).jobs[i] == s.jobs[i] && After(s, e).claims[i] == s.claims[i]
  {
    UnclaimedStep(s, e, i);
  }

  /** No update is lost: what a failure mark writes back was still current when it wrote. */
  lemma NoLostUpdate(s: System, w: Worker, now: int)
    requires Inv(s) && Enabled(s, FailWrite(w, now))
    ensures var i := s.workers[w].job;
            && s.workers[w].read == s.jobs[i].attempts && s.workers[w].limit == s.jobs[i].maxAttempts
            && After(s, FailWrite(w, now)).jobs[i].attempts == s.jobs[i].attempts + 1
  {
    assert WorkerOk(s, w);
  }

  /** The pause after the `n`th failure. */
  function Delay(n: nat): int {
    if n <= 1 then 60 else if n == 2 then 300 else 900
  }

  ghost predicate Unclaimed(events: seq<Event>, i: nat) {
    forall k :: 0 <= k < |events| ==> !(events[k].Claim? && events[k].row == i)
  }

  /** A job that is not running changes only by being claimed. */
  lemma {:induction false} UnclaimedStays(s: System, events: seq<Event>, i: nat)
    requires Inv(s) && Runs(s, events) && Unclaimed(events, i)
    requires i < |s.jobs| && s.jobs[i].status != Running
    ensures i < |End(s, events).jobs| && End(s, events).jobs[i] == s.jobs[i]
    decreases |events|
  {
    if events != [] {
      UnclaimedStep(s, events[0], i);
      StepKeepsInv(s, events[0]);
      UnclaimedStays(After(s, events[0]), events[1..], i);
    }
  }

  lemma UnclaimedStep(s: System, e: Event, i: nat)
    requires Inv(s) && Enabled(s, e) && i < |s.jobs| && s.jobs[i].status != Running
    requires !(e.Claim? && e.row == i)
    ensures i < |After(s, e).jobs| && After(s, e).jobs[i] == s.jobs[i]
  {
    if e.Succeed? || e.FailRead? || e.FailWrite? {
      HolderAlone(s, e.w);
    }
  }

  /** After its `n`th failure is marked, a job is due again exactly when it is not given up and the
      pause, counted from the mark, is over, whatever happens to other jobs meanwhile: no claim of it
      comes earlier. */
  lemma RetryWaits(s: System, w: Worker, now: int, events: seq<Event>, later: int)
    requires Inv(s) && Enabled(s, FailWrite(w, now))
    requires Runs(After(s, FailWrite(w, now)), events) && Unclaimed(events, s.workers[w].job)
    ensures var i, t := s.workers[w].job, End(After(s, FailWrite(w, now)), events);
            && i < |t.jobs| && i < |s.failedRuns|
            && (Due(t.jobs[i], later) <==> s.failedRuns[i] < Allowed(s.jobs[i]) && later >= now + Delay(s.failedRuns[i]))
            && forall v :: Enabled(t, Claim(v, later, i)) ==> later >= now + Delay(s.failedRuns[i])
  {
    HolderAlone(s, w);
    NoLostUpdate(s, w, now);
    assert MarkPending(s, s.workers[w].job);
    FailWriteKeepsInv(s, FailWrite(w, now));
    UnclaimedStays(After(s, FailWrite(w, now)), events, s.workers[w].job);
  }

  // ----- Termination -----

  function Weight(job: Job): int {
    var left := 2 * (Allowed(job) - job.attempts);
    if Terminal(job) then 0 else if job.status == Running then left - 1 else left
  }

  function Measure(jobs: seq<Job>): int {
    if jobs == [] then 0 else Measure(jobs[..|jobs| - 1]) + Weight(jobs[|jobs| - 1])
  }

  function Budget(jobs: seq<Job>): int {
    if jobs == [] then 0 else Budget(jobs[..|jobs| - 1]) + 2 * Allowed(jobs[|jobs| - 1])
  }

  lemma {:induction false} MeasureUpdate(jobs: seq<Job>, i: nat, j: Job)
    requires i < |jobs|
    ensures Measure(jobs[i := j]) == Measure(jobs) - Weight(jobs[i]) + Weight(j)
    ensures Budget(jobs[i := j]) == Budget(jobs) - 2 * Allowed(jobs[i]) + 2 * Allowed(j)
    decreases |jobs|
  {
    var k := |jobs| - 1;
    if i == k {
      assert jobs[i := j][..k] == jobs[..k];
    } else {
      assert jobs[i := j][..k] == jobs[..k][i := j];
      MeasureUpdate(jobs[..k], i, j);
    }
  }

  lemma {:induction false} MeasureNonNegative(s: System, n: nat)
    requires Inv(s) && n <= |s.jobs|
    ensures Measure(s.jobs[..n]) >= 0
    decreases n
  {
    if n > 0 {
      assert s.jobs[..n][..n - 1] == s.jobs[..n - 1];
      MeasureNonNegative(s, n - 1);
      assert JobOk(s, n - 1);
    }
  }

  predicate Transition(e: Event) {
    e.Claim? || e.Succeed? || e.FailWrite?
  }

  function Transitions(events: seq<Event>): nat {
    if events == [] then 0 else (if Transition(events[0]) then 1 else 0) + Transitions(events[1..])
  }

  /** Every claim and every mark lowers the measure; an enqueue raises measure and budget alike. */
  lemma StepLowersMeasure(s: System, e: Event)
    requires Inv(s) && Enabled(s, e)
    ensures var t := After(s, e);
            Measure(t.jobs) - Budget(t.jobs) <= Measure(s.jobs) - Budget(s.jobs) - (if Transition(e) then 1 else 0)
  {
    match e
    case Enqueue(m, now) =>
      assert (s.jobs + [NewJob(m, now)])[..|s.jobs|] == s.jobs;
    case Claim(w, now, i) =>
      assert JobOk(s, i);
      MeasureUpdate(s.jobs, i, ClaimedBy(s.jobs[i], w));
    case Succeed(w) =>
      HolderAlone(s, w);
      var i := s.workers[w].job;
      MeasureUpdate(s.jobs, i, MarkedDone(s.jobs[i]));
    case FailWrite(w, now) =>
      HolderAlone(s, w);
      NoLostUpdate(s, w, now);
      var Marking(i, read, limit) := s.workers[w];
      MeasureUpdate(s.jobs, i, MarkedFailed(s.jobs[i], read, limit, now));
    case _ =>
  }

  lemma {:induction false} TransitionsCounted(s: System, events: seq<Event>)
    requires Inv(s) && Runs(s, events)
    ensures Transitions(events) + Measure(End(s, events).jobs) - Budget(End(s, events).jobs) <=
            Measure(s.jobs) - Budget(s.jobs)
    decreases |events|
  {
    if events != [] {
      StepLowersMeasure(s, events[0]);
      StepKeepsInv(s, events[0]);
      TransitionsCounted(After(s, events[0]), events[1..]);
    }
  }

  /** From an empty table every run, however long, has at most twice as many claims and marks as
      the executions its jobs are allowed. */
  lemma BoundedWork(s: System, events: seq<Event>)
    requires Initial(s) && Runs(s, events)
    ensures Transitions(events) <= Budget(End(s, events).jobs)
  {
    assert Inv(s);
    TransitionsCounted(s, events);
    RunKeepsInv(s, events);
    var t := End(s, events);
    MeasureNonNegative(t, |t.jobs|);
    assert t.jobs[..|t.jobs|] == t.jobs;
  }

  /** While a job is unfinished some worker can move, if the clock is late enough for the retry. */
  lemma NotStuck(s: System) returns (e: Event)
    requires Inv(s) && s.workers != map[] && !Drained(s.jobs)
    ensures Enabled(s, e) && (Transition(e) || e.FailRead?)
  {
    if exists w :: w in s.workers && !s.workers[w].Idle? {
      var w :| w in s.workers && !s.workers[w].Idle?;
      HolderAlone(s, w);
      e := if s.workers[w].Executing? then Succeed(w) else FailWrite(w, 0);
    } else {
      var w :| w in s.workers.Keys;
      var i :| 0 <= i < |s.jobs| && !Terminal(s.jobs[i]);
      assert JobOk(s, i);
      var now := if s.jobs[i].nextRetryAt.Some? then s.jobs[i].nextRetryAt.value else 0;
      SomeEarliest(s.jobs, now, i);
      var row: nat :| EarliestDue(s.jobs, now, row);
      e := Claim(w, now, row);
    }
  }

  // ----- Draining -----

  ghost predicate NoEnqueues(events: seq<Event>) {
    forall i :: 0 <= i < |events| ==> !events[i].Enqueue?
  }

  /** "No pending jobs", once true, stays true without new enqueues. */
  lemma DrainedStep(s: System, e: Event)
    requires Inv(s) && Enabled(s, e) && !e.Enqueue? && Drained(s.jobs)
    ensures Drained(After(s, e).jobs)
  {
    if e.Succeed? || e.FailRead? || e.FailWrite? {
      HolderAlone(s, e.w);
    }
  }

  lemma {:induction false} StableMeansDrained(s: System, events: seq<Event>)
    requires Inv(s) && Runs(s, events) && NoEnqueues(events)
    requires s.stable > 0 ==> Drained(s.jobs)
    ensures End(s, events).stable > 0 ==> Drained(End(s, events).jobs)
    decreases |events|
  {
    if events != [] {
      var e := events[0];
      if Drained(s.jobs) {
        DrainedStep(s, e);
      }
      StepKeepsInv(s, e);
      StableMeansDrained(After(s, e), events[1..]);
    }
  }

  /** `int(poll_grace_sec / 0.25)`, truncating. */
  function Need(graceSec: real): int {
    var q := graceSec / 0.25;
    if q >= 0.0 then q.Floor else -((-q).Floor)
  }

  /** The grace period in whole poll intervals. */
  lemma NeedIs(graceSec: real)
    ensures graceSec >= 0.0 ==> Need(graceSec) as real * 0.25 <= graceSec < (Need(graceSec) + 1) as real * 0.25
    ensures graceSec < 0.0 ==> Need(graceSec) <= 0 && (Need(graceSec) - 1) as real * 0.25 < graceSec <= Need(graceSec) as real * 0.25
  {
  }

  /** What the polls of a run found: whether every job was finished. */
  ghost function Polls(s: System, events: seq<Event>): seq<bool>
    requires Runs(s, events)
    decreases |events|
  {
    if events == [] then []
    else (if events[0].Poll? then [Drained(s.jobs)] else []) + Polls(After(s, events[0]), events[1..])
  }

  /** How many of the last polls in a row found that. */
  function Streak(found: seq<bool>): nat {
    if found == [] || !found[|found| - 1] then 0 else Streak(found[..|found| - 1]) + 1
  }

  ghost predicate AllTrue(found: seq<bool>) {
    forall i :: 0 <= i < |found| ==> found[i]
  }

  lemma AllTrueOf(b: bool, found: seq<bool>)
    ensures AllTrue([b] + found) <==> b && AllTrue(found)
  {
    var all := [b] + found;
    assert all[0] == b && forall k :: 0 < k < |all| ==> all[k] == found[k - 1];
    forall i | 0 <= i < |found| && AllTrue(all)
      ensures found[i]
    {
      assert all[i + 1];
    }
  }

  lemma {:induction false} StreakOf(b: bool, found: seq<bool>)
    ensures Streak([b] + found) == if AllTrue(found) then |found| + (if b then 1 else 0) else Streak(found)
    decreases |found|
  {
    var all := [b] + found;
    if found == [] {
      assert all == [b] && all[..0] == [];
    } else {
      var k := |found| - 1;
      assert all[..|all| - 1] == [b] + found[..k];
      StreakOf(b, found[..k]);
      assert AllTrue(found) <==> AllTrue(found[..k]) && found[k];
    }
  }

  lemma {:induction false} StableIsStreak(s: System, events: seq<Event>)
    requires Runs(s, events)
    ensures var found := Polls(s, events);
            End(s, events).stable == if AllTrue(found) then s.stable + |found| else Streak(found)
    decreases |events|
  {
    if events != [] {
      var rest := Polls(After(s, events[0]), events[1..]);
      StableIsStreak(After(s, events[0]), events[1..]);
      if events[0].Poll? {
        StreakOf(Drained(s.jobs), rest);
        AllTrueOf(Drained(s.jobs), rest);
      } else {
        assert Polls(s, events) == rest;
      }
    }
  }

  lemma {:induction false} FullStreak(found: seq<bool>)
    requires AllTrue(found)
    ensures Streak(found) == |found|
  {
    if found != [] {
      FullStreak(found[..|found| - 1]);
    }
  }

  /** The pool stops exactly when as many polls in a row as the grace period has whole intervals have
      found every job finished. */
  lemma StopsAfterStreakIff(s: System, events: seq<Event>, graceSec: real)
    requires Runs(s, events) && s.stable == 0 && graceSec >= 0.0
    ensures Stops(End(s, events), graceSec) <==> graceSec < (Streak(Polls(s, events)) + 1) as real * 0.25
  {
    StableIsStreak(s, events);
    if AllTrue(Polls(s, events)) {
      FullStreak(Polls(s, events));
    }
    NeedIs(graceSec);
  }

  /** The poller leaves its loop. */
  predicate Stops(s: System, graceSec: real) {
    s.stable >= Need(graceSec)
  }

  /** A pool started on `s` only ever stops on a drained table. */
  ghost predicate StopsOnlyDrained(graceSec: real) {
    forall s, events ::
      Inv(s) && s.stable == 0 && Runs(s, events) && NoEnqueues(events) && Stops(End(s, events), graceSec) ==>
        Drained(End(s, events).jobs)
  }

  /** Exactly a grace period of at least one poll interval makes the pool wait for the last job. */
  lemma PoolStopsOnlyDrainedIff(graceSec: real)
    ensures StopsOnlyDrained(graceSec) <==> graceSec >= 0.25
  {
    if graceSec >= 0.25 {
      assert Need(graceSec) >= 1;
      forall s, events | Inv(s) && s.stable == 0 && Runs(s, events) && NoEnqueues(events) && Stops(End(s, events), graceSec)
        ensures Drained(End(s, events).jobs)
      {
        StableMeansDrained(s, events);
      }
    } else {
      assert Need(graceSec) <= 0;
      var s := System([NewJob(3, 0)], map[0 := Idle], [0], [0], 0);
      assert JobOk(s, 0) && WorkerOk(s, 0);
      assert Inv(s) && Runs(s, []) && NoEnqueues([]) && Stops(End(s, []), graceSec);
      assert !Terminal(s.jobs[0]);
    }
  }

  // ----- One turn of a worker -----

  /** How an execution ends: with a report, or with an exception. */
  datatype Execution = Reported(succeeded: bool, approved: bool) | Raised

  /** The body of the worker loop without interference: claim, execute, mark.  The job is marked
      done exactly when the report says succeeded and approved. */
  method WorkerTurn(table: JobTable, w: Worker, e: Execution, claimAt: int, markAt: int) returns (jobId: Option<nat>)
    modifies table
    ensures jobId.None? <==> forall k :: 0 <= k < |old(table.jobs)| ==> !Due(old(table.jobs)[k], claimAt)
    ensures jobId.None? ==> table.jobs == old(table.jobs)
    ensures jobId.Some? ==>
      && EarliestDue(old(table.jobs), claimAt, jobId.value)
      && var job := ClaimedBy(old(table.jobs)[jobId.value], w);
         table.jobs == old(table.jobs)[jobId.value :=
           if e == Reported(true, true) then MarkedDone(job)
           else MarkedFailed(job, job.attempts, job.maxAttempts, markAt)]
  {
    jobId := table.FetchNext(w, claimAt);
    if jobId.None? {
      return;
    }
    if e.Reported? && e.succeeded && e.approved {
      table.MarkDone(jobId.value);
    } else {
      var row := table.ReadAttempts(jobId.value);
      table.WriteFailure(jobId.value, row.value.0, row.value.1, markAt);
    }
  }
}
