/** The common workflow executor, hex-executor-console-backend/src/workflow/executor.ts, for
    arbitrary step handlers and an arbitrary recovery hook.
 */
module Workflow {
  import opened Common
  import opened Texts
  import opened WorkflowTypes

  /** A handler may also throw. */
  datatype HandlerResult = Done(detail: Text) | NotDone(detail: Text, terminal: bool) | Raised

  datatype Recovery = NoAnswer | Recovered(inject: seq<Entry>) | GaveUp | HookRaised

  datatype Entry = Entry(stepId: Text, attempt: nat, ok: bool, detail: Text)

  /** Trace entries, labelled by who wrote them: the executor, or the recovery hook. */
  datatype Logged = Own(entry: Entry) | Injected(entry: Entry)

  /** Handler and hook as oracles of the call number: any stateful behaviour is one such pair. */
  datatype Oracle = Oracle(handler: nat -> HandlerResult, recover: Option<nat -> Recovery>)

  /** How a run ends.  An exception of handler or hook leaves the executor as it is. */
  datatype Finish =
    | Completed
    | StepFailed
    | NoHandler
    | RecoveryRefused
    | HandlerThrew
    | HookThrew
    | FellThrough

  function Labelled(entries: seq<Entry>): seq<Logged> {
    seq(|entries|, i requires 0 <= i < |entries| => Injected(entries[i]))
  }

  function DetailOf(r: HandlerResult): Text {
    if r.Raised? then [] else r.detail
  }

  // ----- What one step writes -----

  /** The entry of failed attempt `k`, the handler calls of the step starting at call `c`. */
  function Failure(id: Text, k: nat, o: Oracle, c: nat): Entry
    requires k >= 1
  {
    Entry(id, k, false, DetailOf((o.handler)(c + k - 1)))
  }

  function Success(id: Text, k: nat, o: Oracle, c: nat): Entry
    requires k >= 1
  {
    Entry(id, k, true, DetailOf((o.handler)(c + k - 1)))
  }

  /** What the answer to hook call `h` adds to the trace. */
  function Injection(o: Oracle, h: nat): seq<Logged> {
    if o.recover.Some? && (o.recover.value)(h).Recovered? then Labelled((o.recover.value)(h).inject) else []
  }

  /** `k` failed attempts that were retried, each followed by what the hook injected. */
  function Retried(id: Text, k: nat, o: Oracle, c: nat, h: nat): seq<Logged> {
    if k == 0 then [] else Retried(id, k - 1, o, c, h) + ([Own(Failure(id, k, o, c))] + Injection(o, h + k - 1))
  }

  datatype StepEnd = Passed | SkippedOver | Ended(finish: Finish)

  /** The trace of a step that ended so with `k` recorded failures. */
  function StepLog(end: StepEnd, id: Text, k: nat, o: Oracle, c: nat, h: nat): seq<Logged> {
    match end
    case Passed => Retried(id, k, o, c, h) + [Own(Success(id, k + 1, o, c))]
    case SkippedOver => []
    case Ended(HandlerThrew) => Retried(id, k, o, c, h)
    case Ended(_) => if k == 0 then [] else Retried(id, k - 1, o, c, h) + [Own(Failure(id, k, o, c))]
  }

  /** Handler calls of such a step. */
  function StepCalls(end: StepEnd, k: nat): nat {
    if end == Passed || end == Ended(HandlerThrew) then k + 1 else k
  }

  /** Hook calls of such a step: one after each failure but the last one of a failed step. */
  function StepHooks(end: StepEnd, k: nat, o: Oracle): nat {
    if o.recover.None? then 0
    else if end == Ended(StepFailed) && k > 0 then k - 1
    else k
  }

  // ----- What handler and hook must have said -----

  predicate Retriable(o: Oracle, n: nat) {
    (o.handler)(n).NotDone? && !(o.handler)(n).terminal
  }

  ghost predicate Retries(o: Oracle, c: nat, k: nat) {
    forall n: nat :: c <= n < c + k ==> Retriable(o, n)
  }

  /** How hook call `h` ends the run, if it does. */
  function Refusal(o: Oracle, h: nat): Option<Finish> {
    if o.recover.None? then None
    else if (o.recover.value)(h).HookRaised? then Some(HookThrew)
    else if (o.recover.value)(h).GaveUp? then Some(RecoveryRefused)
    else None
  }

  predicate Allows(o: Oracle, h: nat) {
    Refusal(o, h).None?
  }

  ghost predicate HooksAllow(o: Oracle, h: nat, k: nat) {
    forall n: nat :: h <= n < h + k ==> Allows(o, n)
  }

  /** `k` failures from handler call `c` on that were all retried, hook call `h` on permitting. */
  ghost predicate AllRetried(o: Oracle, c: nat, h: nat, k: nat) {
    Retries(o, c, k) && HooksAllow(o, h, k)
  }

  /** When a step ends so after `k` recorded failures: handler and hook leave it no choice. */
  ghost predicate StepContract(step: WorkflowStep, o: Oracle, c: nat, h: nat, end: StepEnd, k: nat) {
    match end
    case Passed => k < step.maxAttempts && AllRetried(o, c, h, k) && (o.handler)(c + k).Done?
    case SkippedOver => step.maxAttempts < 1 && k == 0
    case Ended(StepFailed) =>
      && 1 <= k <= step.maxAttempts && AllRetried(o, c, h, k - 1)
      && (o.handler)(c + k - 1).NotDone? && (k == step.maxAttempts || (o.handler)(c + k - 1).terminal)
    case Ended(RecoveryRefused) =>
      && 1 <= k < step.maxAttempts && AllRetried(o, c, h, k - 1) && Retriable(o, c + k - 1)
      && Refusal(o, h + k - 1) == Some(RecoveryRefused)
    case Ended(HookThrew) =>
      && 1 <= k < step.maxAttempts && AllRetried(o, c, h, k - 1) && Retriable(o, c + k - 1)
      && Refusal(o, h + k - 1) == Some(HookThrew)
    case Ended(HandlerThrew) => k < step.maxAttempts && AllRetried(o, c, h, k) && (o.handler)(c + k).Raised?
    case Ended(_) => false
  }

  lemma Regroup(a: seq<Logged>, b: seq<Logged>, c: seq<Logged>)
    ensures (a + b) + c == a + (b + c)
  {
  }

  /** The recovery hook, if there is one: it may refuse, and it may inject entries. */
  method AskHook(o: Oracle, h: nat, trace: seq<Logged>) returns (refusal: Option<Finish>, hooks: nat, out: seq<Logged>)
    ensures refusal == Refusal(o, h)
    ensures hooks == h + (if o.recover.Some? then 1 else 0)
    ensures out == if refusal.Some? then trace else trace + Injection(o, h)
  {
    refusal, hooks, out := None, h, trace;
    if o.recover.Some? {
      var rec := (o.recover.value)(hooks);
      hooks := hooks + 1;
      if rec.HookRaised? {
        refusal := Some(HookThrew);
      } else if rec.GaveUp? {
        refusal := Some(RecoveryRefused);
      } else if rec.Recovered? {
        out := out + Labelled(rec.inject);
      }
    }
  }

  /** Where the retry loop stands after `k` retried failures. */
  ghost predicate InStep(step: WorkflowStep, o: Oracle, c: nat, h: nat, trace: seq<Logged>,
                         k: nat, calls: nat, hooks: nat, out: seq<Logged>) {
    && calls == c + k && hooks == h + (if o.recover.Some? then k else 0)
    && (k > 0 ==> k < step.maxAttempts)
    && AllRetried(o, c, h, k)
    && out == trace + Retried(step.id, k, o, c, h)
  }

  /** How the step ended, what it cost and what it wrote. */
  ghost predicate StepDone(step: WorkflowStep, o: Oracle, c: nat, h: nat, trace: seq<Logged>,
                           end: StepEnd, k: nat, calls: nat, hooks: nat, out: seq<Logged>) {
    && StepContract(step, o, c, h, end, k)
    && calls == c + StepCalls(end, k) && hooks == h + StepHooks(end, k, o)
    && out == trace + StepLog(end, step.id, k, o, c, h)
  }

  lemma OneMoreRetry(step: WorkflowStep, o: Oracle, c: nat, h: nat, trace: seq<Logged>,
                     k: nat, calls: nat, hooks: nat, out: seq<Logged>)
    requires InStep(step, o, c, h, trace, k, calls, hooks, out)
    requires Retriable(o, c + k) && Allows(o, h + k) && k + 1 < step.maxAttempts
    ensures InStep(step, o, c, h, trace, k + 1, calls + 1, hooks + (if o.recover.Some? then 1 else 0),
                   (out + [Own(Failure(step.id, k + 1, o, c))]) + Injection(o, h + k))
  {
    var r, e, i := Retried(step.id, k, o, c, h), [Own(Failure(step.id, k + 1, o, c))], Injection(o, h + k);
    Regroup(trace, r, e);
    Regroup(trace, r + e, i);
    Regroup(r, e, i);
  }

  lemma EndsWithSuccess(step: WorkflowStep, o: Oracle, c: nat, h: nat, trace: seq<Logged>,
                        k: nat, calls: nat, hooks: nat, out: seq<Logged>)
    requires InStep(step, o, c, h, trace, k, calls, hooks, out)
    requires k < step.maxAttempts && (o.handler)(calls).Done?
    ensures StepDone(step, o, c, h, trace, Passed, k, calls + 1, hooks, out + [Own(Success(step.id, k + 1, o, c))])
  {
    Regroup(trace, Retried(step.id, k, o, c, h), [Own(Success(step.id, k + 1, o, c))]);
  }

  /** The last failure of a step, final by itself or made final by the hook. */
  lemma EndsWithFailure(step: WorkflowStep, o: Oracle, c: nat, h: nat, trace: seq<Logged>,
                        k: nat, calls: nat, hooks: nat, out: seq<Logged>, f: Finish)
    requires InStep(step, o, c, h, trace, k, calls, hooks, out)
    requires k < step.maxAttempts && (o.handler)(calls).NotDone?
    requires if (o.handler)(calls).terminal || k + 1 == step.maxAttempts then f == StepFailed
             else Refusal(o, hooks) == Some(f)
    ensures StepDone(step, o, c, h, trace, Ended(f), k + 1, calls + 1, hooks + (if f == StepFailed then 0 else 1),
                     out + [Own(Failure(step.id, k + 1, o, c))])
  {
    Regroup(trace, Retried(step.id, k, o, c, h), [Own(Failure(step.id, k + 1, o, c))]);
  }

  /** One step: its retry loop. */
  method RunStep(step: WorkflowStep, o: Oracle, c: nat, h: nat, trace: seq<Logged>)
    returns (end: StepEnd, k: nat, calls: nat, hooks: nat, out: seq<Logged>)
    ensures StepDone(step, o, c, h, trace, end, k, calls, hooks, out)
  {
    calls, hooks, out, k := c, h, trace, 0;
    var attempt := 1;
    while attempt <= step.maxAttempts
      invariant attempt == k + 1 && InStep(step, o, c, h, trace, k, calls, hooks, out)
    {
      var r := (o.handler)(calls);
      if r.Raised? {
        return Ended(HandlerThrew), k, calls + 1, hooks, out;
      }
      var logged := out + [Own(Entry(step.id, attempt, r.Done?, r.detail))];
      if r.Done? {
        EndsWithSuccess(step, o, c, h, trace, k, calls, hooks, out);
        return Passed, k, calls + 1, hooks, logged;
      }
      if r.terminal || attempt >= step.maxAttempts {
        EndsWithFailure(step, o, c, h, trace, k, calls, hooks, out, StepFailed);
        return Ended(StepFailed), k + 1, calls + 1, hooks, logged;
      }
      var refusal, asked, injected := AskHook(o, hooks, logged);
      if refusal.Some? {
        EndsWithFailure(step, o, c, h, trace, k, calls, hooks, out, refusal.value);
        return Ended(refusal.value), k + 1, calls + 1, asked, injected;
      }
      OneMoreRetry(step, o, c, h, trace, k, calls, hooks, out);
      k, calls, hooks, out := k + 1, calls + 1, asked, injected;
      attempt := attempt + 1;
    }
    return SkippedOver, k, calls, hooks, out;
  }

  // ----- The whole plan -----

  /** Handler calls of the first `n` steps, given their numbers of failures; a step without
      attempts is passed over without a call. */
  function CallsOf(steps: seq<WorkflowStep>, fails: seq<nat>, n: nat): nat
    requires n <= |steps| && n <= |fails|
  {
    if n == 0 then 0
    else CallsOf(steps, fails, n - 1) + (if steps[n - 1].maxAttempts < 1 then 0 else fails[n - 1] + 1)
  }

  /** Hook calls of the first `n` steps, all finished. */
  function HooksOf(steps: seq<WorkflowStep>, fails: seq<nat>, o: Oracle, n: nat): nat
    requires n <= |steps| && n <= |fails|
  {
    if n == 0 then 0
    else HooksOf(steps, fails, o, n - 1) + (if steps[n - 1].maxAttempts < 1 || o.recover.None? then 0 else fails[n - 1])
  }

  function FinishedLog(steps: seq<WorkflowStep>, fails: seq<nat>, o: Oracle, i: nat): seq<Logged>
    requires i < |steps| && i < |fails|
  {
    if steps[i].maxAttempts < 1 then []
    else StepLog(Passed, steps[i].id, fails[i], o, CallsOf(steps, fails, i), HooksOf(steps, fails, o, i))
  }

  /** The parts of a trace one after the other. */
  function Joined<T>(parts: seq<seq<T>>): seq<T> {
    if parts == [] then [] else Joined(parts[..|parts| - 1]) + parts[|parts| - 1]
  }

  /** The logs of the first `n` finished steps. */
  function Logs(steps: seq<WorkflowStep>, fails: seq<nat>, o: Oracle, n: nat): (parts: seq<seq<Logged>>)
    requires n <= |steps| && n <= |fails|
    ensures |parts| == n && forall i :: 0 <= i < n ==> parts[i] == FinishedLog(steps, fails, o, i)
  {
    seq(n, i requires 0 <= i < n => FinishedLog(steps, fails, o, i))
  }

  /** The trace of the first `n` steps, all finished. */
  function PlanLog(steps: seq<WorkflowStep>, fails: seq<nat>, o: Oracle, n: nat): seq<Logged>
    requires n <= |steps| && n <= |fails|
  {
    Joined(Logs(steps, fails, o, n))
  }

  /** Step `i` finished: it has a handler, and passed, or has no attempts. */
  ghost predicate StepFinished(steps: seq<WorkflowStep>, fails: seq<nat>, o: Oracle, handlers: set<Text>, i: nat)
    requires i < |steps| && i < |fails|
  {
    && steps[i].id in handlers
    && (steps[i].maxAttempts >= 1 ==>
          StepContract(steps[i], o, CallsOf(steps, fails, i), HooksOf(steps, fails, o, i), Passed, fails[i]))
  }

  ghost predicate AllFinished(steps: seq<WorkflowStep>, fails: seq<nat>, o: Oracle, handlers: set<Text>) {
    |fails| <= |steps| && forall i :: 0 <= i < |fails| ==> StepFinished(steps, fails, o, handlers, i)
  }

  /** The sum of the retry limits of the first `n` steps. */
  function AttemptBudget(steps: seq<WorkflowStep>, n: nat): nat
    requires n <= |steps|
  {
    if n == 0 then 0
    else AttemptBudget(steps, n - 1) + (if steps[n - 1].maxAttempts < 1 then 0 else steps[n - 1].maxAttempts)
  }

  lemma {:induction false} BudgetMonotone(steps: seq<WorkflowStep>, n: nat)
    requires n <= |steps|
    ensures AttemptBudget(steps, n) <= AttemptBudget(steps, |steps|)
    decreases |steps| - n
  {
    if n < |steps| {
      BudgetMonotone(steps, n + 1);
    }
  }

  /** Counters and trace of the first steps do not depend on the later ones. */
  lemma {:induction false} PrefixCounts(steps: seq<WorkflowStep>, fails: seq<nat>, x: nat, o: Oracle, n: nat)
    requires n <= |fails| && n <= |steps|
    ensures CallsOf(steps, fails + [x], n) == CallsOf(steps, fails, n)
    ensures HooksOf(steps, fails + [x], o, n) == HooksOf(steps, fails, o, n)
  {
    if n > 0 {
      PrefixCounts(steps, fails, x, o, n - 1);
    }
  }

  lemma PrefixFinished(steps: seq<WorkflowStep>, fails: seq<nat>, x: nat, o: Oracle, i: nat)
    requires i < |fails| && i < |steps|
    ensures FinishedLog(steps, fails + [x], o, i) == FinishedLog(steps, fails, o, i)
  {
    PrefixCounts(steps, fails, x, o, i);
  }

  /** One more step finished. */
  lemma OneMoreFinished(steps: seq<WorkflowStep>, fails: seq<nat>, k: nat, o: Oracle, handlers: set<Text>, end: StepEnd)
    requires AllFinished(steps, fails, o, handlers) && |fails| < |steps|
    requires steps[|fails|].id in handlers && !end.Ended?
    requires StepContract(steps[|fails|], o, CallsOf(steps, fails, |fails|), HooksOf(steps, fails, o, |fails|), end, k)
    ensures AllFinished(steps, fails + [k], o, handlers)
  {
    var all := fails + [k];
    forall i | 0 <= i < |all|
      ensures StepFinished(steps, all, o, handlers, i)
    {
      PrefixCounts(steps, fails, k, o, i);
      if i < |fails| {
        assert StepFinished(steps, fails, o, handlers, i);
      }
    }
  }

  /** What a step adds to the counters. */
  lemma OneMoreCounted(steps: seq<WorkflowStep>, fails: seq<nat>, k: nat, o: Oracle, end: StepEnd)
    requires |fails| < |steps| && !end.Ended?
    requires end.SkippedOver? <==> steps[|fails|].maxAttempts < 1
    requires end.SkippedOver? ==> k == 0
    ensures var n, all := |fails|, fails + [k];
            && CallsOf(steps, all, n + 1) == CallsOf(steps, fails, n) + StepCalls(end, k)
            && HooksOf(steps, all, o, n + 1) == HooksOf(steps, fails, o, n) + StepHooks(end, k, o)
  {
    PrefixCounts(steps, fails, k, o, |fails|);
  }

  lemma JoinedGrows<T>(parts: seq<seq<T>>, part: seq<T>)
    ensures Joined(parts + [part]) == Joined(parts) + part
  {
    assert (parts + [part])[..|parts|] == parts;
  }

  /** What a step adds to the logs. */
  lemma OneMoreLogged(steps: seq<WorkflowStep>, fails: seq<nat>, k: nat, o: Oracle, end: StepEnd)
    requires |fails| < |steps| && !end.Ended?
    requires end.SkippedOver? <==> steps[|fails|].maxAttempts < 1
    ensures var n := |fails|;
            Logs(steps, fails + [k], o, n + 1) == Logs(steps, fails, o, n) +
              [StepLog(end, steps[n].id, k, o, CallsOf(steps, fails, n), HooksOf(steps, fails, o, n))]
  {
    var n, all := |fails|, fails + [k];
    PrefixCounts(steps, fails, k, o, n);
    assert FinishedLog(steps, all, o, n) ==
           StepLog(end, steps[n].id, k, o, CallsOf(steps, fails, n), HooksOf(steps, fails, o, n));
    forall i | 0 <= i < n
      ensures FinishedLog(steps, all, o, i) == FinishedLog(steps, fails, o, i)
    {
      PrefixFinished(steps, fails, k, o, i);
    }
  }

  /** What a step adds to the trace. */
  lemma TraceGrows(trace: seq<Logged>, logs: seq<seq<Logged>>, part: seq<Logged>, log: seq<Logged>, out: seq<Logged>, longer: seq<seq<Logged>>)
    requires log == trace + Joined(logs) && out == log + part && longer == logs + [part]
    ensures out == trace + Joined(longer)
  {
    JoinedGrows(logs, part);
    Regroup(trace, Joined(logs), part);
  }

  /** A step costs no more handler calls than it allows attempts. */
  lemma StepWithinBudget(steps: seq<WorkflowStep>, i: nat, o: Oracle, c: nat, h: nat, end: StepEnd, k: nat)
    requires i < |steps| && StepContract(steps[i], o, c, h, end, k)
    ensures AttemptBudget(steps, i) + StepCalls(end, k) <= AttemptBudget(steps, i + 1) <= AttemptBudget(steps, |steps|)
  {
    BudgetMonotone(steps, i + 1);
  }

  /** What the finished steps cost. */
  ghost predicate Counted(steps: seq<WorkflowStep>, fails: seq<nat>, o: Oracle, calls: nat, hooks: nat) {
    && |fails| <= |steps|
    && calls == CallsOf(steps, fails, |fails|) && hooks == HooksOf(steps, fails, o, |fails|)
    && calls <= AttemptBudget(steps, |fails|)
  }

  /** The run stopped at the step after the finished ones: why, at what cost, and what it wrote. */
  ghost predicate StoppedAt(steps: seq<WorkflowStep>, fails: seq<nat>, o: Oracle, trace: seq<Logged>,
                            finish: Finish, k: nat, calls: nat, out: seq<Logged>) {
    var n := |fails|;
    && n < |steps|
    && var c, h := CallsOf(steps, fails, n), HooksOf(steps, fails, o, n);
    && StepContract(steps[n], o, c, h, Ended(finish), k)
    && calls == c + StepCalls(Ended(finish), k)
    && out == (trace + PlanLog(steps, fails, o, n)) + StepLog(Ended(finish), steps[n].id, k, o, c, h)
  }

  lemma StillCounted(steps: seq<WorkflowStep>, fails: seq<nat>, o: Oracle, c: nat, h: nat, end: StepEnd, k: nat)
    requires Counted(steps, fails, o, c, h) && |fails| < |steps| && !end.Ended?
    requires StepContract(steps[|fails|], o, c, h, end, k)
    ensures Counted(steps, fails + [k], o, c + StepCalls(end, k), h + StepHooks(end, k, o))
  {
    StepWithinBudget(steps, |fails|, o, c, h, end, k);
    OneMoreCounted(steps, fails, k, o, end);
  }

  lemma StillTraced(steps: seq<WorkflowStep>, fails: seq<nat>, o: Oracle, trace: seq<Logged>,
                    log: seq<Logged>, out: seq<Logged>, part: seq<Logged>, end: StepEnd, k: nat)
    requires |fails| < |steps| && !end.Ended?
    requires end.SkippedOver? <==> steps[|fails|].maxAttempts < 1
    requires log == trace + PlanLog(steps, fails, o, |fails|) && out == log + part
    requires part == StepLog(end, steps[|fails|].id, k, o, CallsOf(steps, fails, |fails|), HooksOf(steps, fails, o, |fails|))
    ensures out == trace + PlanLog(steps, fails + [k], o, |fails| + 1)
  {
    OneMoreLogged(steps, fails, k, o, end);
    TraceGrows(trace, Logs(steps, fails, o, |fails|), part, log, out, Logs(steps, fails + [k], o, |fails| + 1));
  }

  /** A step that did not end the run: the loop goes on as before. */
  lemma OneMoreStep(steps: seq<WorkflowStep>, fails: seq<nat>, o: Oracle, trace: seq<Logged>, c: nat, h: nat, log: seq<Logged>,
                    end: StepEnd, k: nat, calls: nat, hooks: nat, out: seq<Logged>)
    requires Counted(steps, fails, o, c, h) && |fails| < |steps| && log == trace + PlanLog(steps, fails, o, |fails|)
    requires !end.Ended? && StepDone(steps[|fails|], o, c, h, log, end, k, calls, hooks, out)
    ensures Counted(steps, fails + [k], o, calls, hooks)
    ensures out == trace + PlanLog(steps, fails + [k], o, |fails| + 1)
  {
    StillCounted(steps, fails, o, c, h, end, k);
    StillTraced(steps, fails, o, trace, log, out, StepLog(end, steps[|fails|].id, k, o, c, h), end, k);
  }

  lemma StopsThere(steps: seq<WorkflowStep>, fails: seq<nat>, o: Oracle, trace: seq<Logged>, c: nat, h: nat, log: seq<Logged>,
                   end: StepEnd, k: nat, calls: nat, hooks: nat, out: seq<Logged>)
    requires Counted(steps, fails, o, c, h) && |fails| < |steps| && log == trace + PlanLog(steps, fails, o, |fails|)
    requires StepDone(steps[|fails|], o, c, h, log, end, k, calls, hooks, out) && end.Ended?
    ensures StoppedAt(steps, fails, o, trace, end.finish, k, calls, out)
    ensures calls <= AttemptBudget(steps, |steps|)
  {
    StepWithinBudget(steps, |fails|, o, c, h, end, k);
  }

  /** The executor.  Its trace is, for each finished step in order, the failures 1..k of that step
      with the entries the hook injected after each, and its success k + 1; then what the step it
      stopped at wrote.  It completes only when every step finished, and falls through only when
      there is no step or the last one has no attempt. */
  method RunWorkflowPlan(steps: seq<WorkflowStep>, handlers: set<Text>, o: Oracle, trace: seq<Logged>)
    returns (finish: Finish, fails: seq<nat>, partial: nat, calls: nat, out: seq<Logged>)
    ensures AllFinished(steps, fails, o, handlers)
    ensures finish == Completed <==> |fails| == |steps| && steps != [] && steps[|steps| - 1].maxAttempts >= 1
    ensures finish == FellThrough <==> |fails| == |steps| && (steps == [] || steps[|steps| - 1].maxAttempts < 1)
    ensures finish == NoHandler <==> |fails| < |steps| && steps[|fails|].id !in handlers
    ensures calls <= AttemptBudget(steps, |steps|)
    ensures finish in {Completed, FellThrough, NoHandler} ==>
      && out == trace + PlanLog(steps, fails, o, |fails|)
      && calls == CallsOf(steps, fails, |fails|)
    ensures finish in {StepFailed, RecoveryRefused, HandlerThrew, HookThrew} ==>
      StoppedAt(steps, fails, o, trace, finish, partial, calls, out)
  {
    fails, partial, calls, out := [], 0, 0, trace;
    var hooks := 0;
    for si := 0 to |steps|
      invariant |fails| == si && AllFinished(steps, fails, o, handlers)
      invariant Counted(steps, fails, o, calls, hooks)
      invariant out == trace + PlanLog(steps, fails, o, |fails|)
      invariant si > 0 && si == |steps| ==> steps[si - 1].maxAttempts < 1
    {
      var step := steps[si];
      BudgetMonotone(steps, si);
      if step.id !in handlers {
        return NoHandler, fails, 0, calls, out;
      }
      ghost var c, h, log := calls, hooks, out;
      var end, k;
      end, k, calls, hooks, out := RunStep(step, o, calls, hooks, out);
      if end.Ended? {
        StopsThere(steps, fails, o, trace, c, h, log, end, k, calls, hooks, out);
        return end.finish, fails, k, calls, out;
      }
      OneMoreFinished(steps, fails, k, o, handlers, end);
      OneMoreStep(steps, fails, o, trace, c, h, log, end, k, calls, hooks, out);
      fails := fails + [k];
      if end.Passed? && si == |steps| - 1 {
        return Completed, fails, 0, calls, out;
      }
    }
    finish := FellThrough;
  }

  // ----- The two parts of a trace: own entries and injected ones -----

  /** The entries of one kind among the first `n`. */
  function PickUpTo(trace: seq<Logged>, own: bool, n: nat): seq<Entry>
    requires n <= |trace|
  {
    if n == 0 then [] else PickUpTo(trace, own, n - 1) + (if trace[n - 1].Own? == own then [trace[n - 1].entry] else [])
  }

  function Picked(trace: seq<Logged>, own: bool): seq<Entry> {
    PickUpTo(trace, own, |trace|)
  }

  /** The executor's own entries. */
  function OwnEntries(trace: seq<Logged>): seq<Entry> {
    Picked(trace, true)
  }

  /** What the hook injected. */
  function InjectedEntries(trace: seq<Logged>): seq<Entry> {
    Picked(trace, false)
  }

  lemma {:induction false} PickPrefix(a: seq<Logged>, b: seq<Logged>, own: bool, n: nat)
    requires n <= |a|
    ensures PickUpTo(a + b, own, n) == PickUpTo(a, own, n)
  {
    if n > 0 {
      PickPrefix(a, b, own, n - 1);
    }
  }

  lemma {:induction false} PickSuffix(a: seq<Logged>, b: seq<Logged>, own: bool, n: nat)
    requires n <= |b|
    ensures PickUpTo(a + b, own, |a| + n) == Picked(a, own) + PickUpTo(b, own, n)
  {
    if n == 0 {
      PickPrefix(a, b, own, |a|);
    } else {
      PickSuffix(a, b, own, n - 1);
      assert (a + b)[|a| + n - 1] == b[n - 1];
    }
  }

  lemma PickConcat(a: seq<Logged>, b: seq<Logged>, own: bool)
    ensures Picked(a + b, own) == Picked(a, own) + Picked(b, own)
  {
    PickSuffix(a, b, own, |b|);
  }

  lemma OwnConcat(a: seq<Logged>, b: seq<Logged>)
    ensures OwnEntries(a + b) == OwnEntries(a) + OwnEntries(b)
  {
    PickConcat(a, b, true);
  }

  lemma {:induction false} LabelledUpTo(inject: seq<Entry>, own: bool, n: nat)
    requires n <= |inject|
    ensures PickUpTo(Labelled(inject), own, n) == if own then [] else inject[..n]
  {
    if n > 0 {
      LabelledUpTo(inject, own, n - 1);
    }
  }

  lemma LabelledAre(inject: seq<Entry>)
    ensures OwnEntries(Labelled(inject)) == [] && InjectedEntries(Labelled(inject)) == inject
  {
    LabelledUpTo(inject, true, |inject|);
    LabelledUpTo(inject, false, |inject|);
  }

  /** `k` failed attempts, numbered from 1. */
  function Failures(id: Text, k: nat, o: Oracle, c: nat): seq<Entry> {
    if k == 0 then [] else Failures(id, k - 1, o, c) + [Failure(id, k, o, c)]
  }

  /** The entries the answer to hook call `h` asks to inject. */
  function AnswerOf(o: Oracle, h: nat): seq<Entry> {
    match o.recover
    case None => []
    case Some(hook) => if hook(h).Recovered? then hook(h).inject else []
  }

  /** All that the answers to `k` hook calls ask to inject, in order. */
  function Answers(o: Oracle, h: nat, k: nat): seq<Entry> {
    if k == 0 then [] else Answers(o, h, k - 1) + AnswerOf(o, h + k - 1)
  }

  /** The entry is that of an attempt with this number and outcome, and says what the handler said. */
  ghost predicate Tells(e: Entry, id: Text, attempt: nat, ok: bool, said: HandlerResult) {
    e.stepId == id && e.attempt == attempt && e.ok == ok && (!said.Raised? ==> e.detail == said.detail)
  }

  /** The failures are numbered from 1, carry the step's id and what the handler said. */
  lemma {:induction false} FailuresRead(id: Text, k: nat, o: Oracle, c: nat)
    ensures |Failures(id, k, o, c)| == k
    ensures forall j :: 0 <= j < k ==> Tells(Failures(id, k, o, c)[j], id, j + 1, false, (o.handler)(c + j))
  {
    if k > 0 {
      FailuresRead(id, k - 1, o, c);
    }
  }

  lemma OneOwn(e: Entry)
    ensures OwnEntries([Own(e)]) == [e] && InjectedEntries([Own(e)]) == []
  {
    assert PickUpTo([Own(e)], true, 1) == PickUpTo([Own(e)], true, 0) + [e];
    assert PickUpTo([Own(e)], false, 1) == PickUpTo([Own(e)], false, 0);
  }

  /** One more failure, whatever is injected after it, is one more own entry. */
  lemma OwnAfter(front: seq<Logged>, e: Entry, o: Oracle, h: nat, all: seq<Logged>)
    requires all == front + ([Own(e)] + Injection(o, h))
    ensures OwnEntries(all) == OwnEntries(front) + [e]
    ensures InjectedEntries(all) == InjectedEntries(front) + AnswerOf(o, h)
  {
    OneOwn(e);
    LabelledAre(AnswerOf(o, h));
    assert Injection(o, h) == Labelled(AnswerOf(o, h));
    PickConcat([Own(e)], Injection(o, h), true);
    PickConcat(front, [Own(e)] + Injection(o, h), true);
    PickConcat([Own(e)], Injection(o, h), false);
    PickConcat(front, [Own(e)] + Injection(o, h), false);
  }

  lemma RetriedPeel(id: Text, k: nat, o: Oracle, c: nat, h: nat)
    requires k > 0
    ensures Retried(id, k, o, c, h) == Retried(id, k - 1, o, c, h) + ([Own(Failure(id, k, o, c))] + Injection(o, h + k - 1))
    ensures Failures(id, k, o, c) == Failures(id, k - 1, o, c) + [Failure(id, k, o, c)]
  {
  }

  lemma {:induction false} OwnRetried(id: Text, k: nat, o: Oracle, c: nat, h: nat)
    ensures OwnEntries(Retried(id, k, o, c, h)) == Failures(id, k, o, c)
    ensures InjectedEntries(Retried(id, k, o, c, h)) == Answers(o, h, k)
  {
    if k == 0 {
      assert Retried(id, k, o, c, h) == [];
    } else {
      var front, e := Retried(id, k - 1, o, c, h), Failure(id, k, o, c);
      OwnRetried(id, k - 1, o, c, h);
      RetriedPeel(id, k, o, c, h);
      OwnAfter(front, e, o, h + k - 1, Retried(id, k, o, c, h));
    }
  }

  /** A finished step: failures 1..k, then success k + 1. */
  function Block(id: Text, k: nat, o: Oracle, c: nat): seq<Entry> {
    Failures(id, k, o, c) + [Success(id, k + 1, o, c)]
  }

  /** The attempts of a finished step are numbered 1 to k + 1, only the last one ok, each with what the
      handler said. */
  lemma BlockReads(id: Text, k: nat, o: Oracle, c: nat)
    ensures |Block(id, k, o, c)| == k + 1
    ensures forall j :: 0 <= j <= k ==> Tells(Block(id, k, o, c)[j], id, j + 1, j == k, (o.handler)(c + j))
  {
    FailuresRead(id, k, o, c);
  }

  /** Each failure comes with its answer: whatever point of the retries one looks at, the failures up to
      then and the answers to them are there. */
  lemma {:induction false} AnswersFollow(id: Text, j: nat, k: nat, o: Oracle, c: nat, h: nat)
    requires j <= k
    ensures Retried(id, j, o, c, h) <= Retried(id, k, o, c, h)
    ensures OwnEntries(Retried(id, j, o, c, h)) == Failures(id, j, o, c)
    ensures InjectedEntries(Retried(id, j, o, c, h)) == Answers(o, h, j)
    decreases k
  {
    OwnRetried(id, j, o, c, h);
    if j < k {
      AnswersFollow(id, j, k - 1, o, c, h);
      RetriedPeel(id, k, o, c, h);
    }
  }

  /** Leaving out what the hook injected, the trace of a finished step is its block; what was injected
      is what the hook answered to its failures, in order. */
  lemma OwnPassed(id: Text, k: nat, o: Oracle, c: nat, h: nat)
    ensures OwnEntries(StepLog(Passed, id, k, o, c, h)) == Block(id, k, o, c)
    ensures InjectedEntries(StepLog(Passed, id, k, o, c, h)) == Answers(o, h, k)
  {
    OwnRetried(id, k, o, c, h);
    OneOwn(Success(id, k + 1, o, c));
    PickConcat(Retried(id, k, o, c, h), [Own(Success(id, k + 1, o, c))], true);
    PickConcat(Retried(id, k, o, c, h), [Own(Success(id, k + 1, o, c))], false);
  }

  /** The own entries of a trace of parts, from those of each part. */
  lemma {:induction false} OwnJoined(parts: seq<seq<Logged>>, own: seq<seq<Entry>>)
    requires |own| == |parts| && forall i :: 0 <= i < |parts| ==> OwnEntries(parts[i]) == own[i]
    ensures OwnEntries(Joined(parts)) == Joined(own)
    decreases |parts|
  {
    if parts != [] {
      var k := |parts| - 1;
      OwnJoined(parts[..k], own[..k]);
      OwnConcat(Joined(parts[..k]), parts[k]);
    }
  }

  /** The blocks of the first `n` finished steps, in order; a step without attempts has none. */
  function Blocks(steps: seq<WorkflowStep>, fails: seq<nat>, o: Oracle, n: nat): (blocks: seq<seq<Entry>>)
    requires n <= |steps| && n <= |fails|
    ensures |blocks| == n && forall i :: 0 <= i < n ==> blocks[i] == BlockAt(steps, fails, o, i)
  {
    seq(n, i requires 0 <= i < n => BlockAt(steps, fails, o, i))
  }

  function BlockAt(steps: seq<WorkflowStep>, fails: seq<nat>, o: Oracle, i: nat): seq<Entry>
    requires i < |steps| && i < |fails|
  {
    if steps[i].maxAttempts < 1 then [] else Block(steps[i].id, fails[i], o, CallsOf(steps, fails, i))
  }

  lemma OwnFinished(steps: seq<WorkflowStep>, fails: seq<nat>, o: Oracle, i: nat)
    requires i < |steps| && i < |fails|
    ensures OwnEntries(FinishedLog(steps, fails, o, i)) == BlockAt(steps, fails, o, i)
  {
    OwnPassed(steps[i].id, fails[i], o, CallsOf(steps, fails, i), HooksOf(steps, fails, o, i));
  }

  /** Leaving out what the hook injected, the trace of the finished steps is their blocks in order. */
  lemma OwnTraceIsBlocks(steps: seq<WorkflowStep>, fails: seq<nat>, o: Oracle, n: nat)
    requires n <= |steps| && n <= |fails|
    ensures OwnEntries(PlanLog(steps, fails, o, n)) == Joined(Blocks(steps, fails, o, n))
  {
    forall i | 0 <= i < n
      ensures OwnEntries(FinishedLog(steps, fails, o, i)) == BlockAt(steps, fails, o, i)
    {
      OwnFinished(steps, fails, o, i);
    }
    OwnJoined(Logs(steps, fails, o, n), Blocks(steps, fails, o, n));
  }

  /** The finished steps have one own entry for each handler call. */
  lemma {:induction false} CallsAreEntries(steps: seq<WorkflowStep>, fails: seq<nat>, o: Oracle, n: nat)
    requires n <= |steps| && n <= |fails|
    ensures |Joined(Blocks(steps, fails, o, n))| == CallsOf(steps, fails, n)
  {
    if n > 0 {
      CallsAreEntries(steps, fails, o, n - 1);
      assert Blocks(steps, fails, o, n)[..n - 1] == Blocks(steps, fails, o, n - 1);
      BlockReads(steps[n - 1].id, fails[n - 1], o, CallsOf(steps, fails, n - 1));
    }
  }

  /** The own part of a step the run stopped at: its failures 1..k. */
  lemma OwnStopped(end: StepEnd, id: Text, k: nat, o: Oracle, c: nat, h: nat)
    requires end.Ended?
    ensures OwnEntries(StepLog(end, id, k, o, c, h)) == Failures(id, k, o, c)
    ensures InjectedEntries(StepLog(end, id, k, o, c, h)) ==
            Answers(o, h, if end.finish.HandlerThrew? || k == 0 then k else k - 1)
  {
    OwnRetried(id, k, o, c, h);
    if k > 0 {
      OwnRetried(id, k - 1, o, c, h);
      OneOwn(Failure(id, k, o, c));
      PickConcat(Retried(id, k - 1, o, c, h), [Own(Failure(id, k, o, c))], true);
      PickConcat(Retried(id, k - 1, o, c, h), [Own(Failure(id, k, o, c))], false);
    }
  }

  /** The own part of a whole run that stopped at a step: what was there before, the blocks of the
      finished steps, the failures of that step. */
  lemma OwnRun(trace: seq<Logged>, steps: seq<WorkflowStep>, fails: seq<nat>, o: Oracle, end: StepEnd, k: nat)
    requires |fails| < |steps| && end.Ended?
    ensures var n := |fails|;
            var c, h := CallsOf(steps, fails, n), HooksOf(steps, fails, o, n);
            OwnEntries((trace + PlanLog(steps, fails, o, n)) + StepLog(end, steps[n].id, k, o, c, h)) ==
              (OwnEntries(trace) + Joined(Blocks(steps, fails, o, n))) + Failures(steps[n].id, k, o, c)
  {
    var n := |fails|;
    var c, h := CallsOf(steps, fails, n), HooksOf(steps, fails, o, n);
    OwnTraceIsBlocks(steps, fails, o, n);
    OwnStopped(end, steps[n].id, k, o, c, h);
    OwnConcat(trace, PlanLog(steps, fails, o, n));
    OwnConcat(trace + PlanLog(steps, fails, o, n), StepLog(end, steps[n].id, k, o, c, h));
  }

  /** How many failures of such a step were retried. */
  function RetriedCount(end: StepEnd, k: nat): nat {
    if end == Passed || end == Ended(HandlerThrew) || k == 0 then k else k - 1
  }

  lemma NoFurther(step: WorkflowStep, o: Oracle, c: nat, h: nat, end: StepEnd, k: nat, end2: StepEnd, k2: nat)
    requires StepContract(step, o, c, h, end, k) && StepContract(step, o, c, h, end2, k2)
    ensures RetriedCount(end2, k2) <= RetriedCount(end, k)
  {
    var r := RetriedCount(end, k);
    assert r < RetriedCount(end2, k2) ==> Retriable(o, c + r) && Allows(o, h + r);
  }

  /** A step is passed over, without a call or an entry, exactly when it allows no attempt. */
  lemma SkippedIff(step: WorkflowStep, o: Oracle, c: nat, h: nat, end: StepEnd, k: nat)
    requires StepContract(step, o, c, h, end, k)
    ensures step.maxAttempts < 1 <==> end.SkippedOver?
    ensures end.SkippedOver? ==> StepCalls(end, k) == 0 && StepLog(end, step.id, k, o, c, h) == []
  {
  }

  /** Handler and hook determine how a step ends and with how many failures. */
  lemma StepDetermined(step: WorkflowStep, o: Oracle, c: nat, h: nat, end: StepEnd, k: nat, end2: StepEnd, k2: nat)
    requires StepContract(step, o, c, h, end, k) && StepContract(step, o, c, h, end2, k2)
    ensures end == end2 && k == k2
  {
    NoFurther(step, o, c, h, end, k, end2, k2);
    NoFurther(step, o, c, h, end2, k2, end, k);
  }
}
