/** The per-tool circuit breaker and the mutating-command limiter of
    hex-executor-console-backend/src/toolCircuitBreaker.ts, driven by the execute handler of
    hex-executor-console-backend/src/index.ts.  Times are milliseconds.
 */
module ToolBreaker {
  import opened Common
  import opened Texts

  datatype Key = Gemini | Ollama | Emulator | Adb | FileMoveMutation | MutatingPipeline
  datatype Phase = Closed | Open | HalfOpen

  /** The reason texts.  Only a raw one, passed in by a caller, can begin with MANUAL: the others
      begin with the key or with fixed wording. */
  datatype Reason =
    | Raw(text: Text)
    | ProbeAllowed(key: Key)
    | ProbeFailed(key: Key, cause: Text)
    | TooManyFailures(key: Key, count: nat, cause: Text)
    | RateExceeded(count: nat, limit: int)

  datatype Bucket = Bucket(
    phase: Phase,
    consecutiveFailures: nat,
    openedAt: Option<int>,
    lastReason: Option<Reason>,
    mutatingTimestamps: seq<int>,
    halfOpenProbeStartedAt: Option<int>)

  datatype BreakerPolicy = BreakerPolicy(
    failureThreshold: Option<int>,
    cooldownSeconds: Option<int>,
    manualResetRequired: Option<bool>)

  datatype Policy = Policy(
    maxConsecutiveFailures: int,
    maxMutatingCommandsPerMinute: int,
    breakers: map<Key, BreakerPolicy>)

  datatype Config = Config(failureThreshold: int, cooldownSeconds: int, manualResetRequired: bool)

  datatype Decision = Decision(allowed: bool, retryAfterMs: Option<int>, phase: Phase)

  const WINDOW := 60_000

  const FRESH_BUCKET := Bucket(Closed, 0, None, None, [], None)

  function Default<T>(o: Option<T>, d: T): T {
    if o.Some? then o.value else d
  }

  function CfgFor(key: Key, policy: Policy): Config {
    var d := if key in policy.breakers then policy.breakers[key] else BreakerPolicy(None, None, None);
    Config(Default(d.failureThreshold, if key == MutatingPipeline then policy.maxConsecutiveFailures else 5),
           Default(d.cooldownSeconds, 60),
           Default(d.manualResetRequired, false))
  }

  predicate StartsManual(r: Option<Reason>) {
    r.Some? && r.value.Raw? && Lit("MANUAL") <= r.value.text
  }

  /** The one denial that no clock ends. */
  predicate HeldManually(c: Config, b: Bucket) {
    c.manualResetRequired && b.phase == Open && StartsManual(b.lastReason)
  }

  // ----- The transitions, as functions of the bucket -----

  function Tripped(b: Bucket, reason: Reason, now: int): Bucket {
    b.(phase := Open, openedAt := Some(now), lastReason := Some(reason), halfOpenProbeStartedAt := None)
  }

  function Evaluated(key: Key, c: Config, b: Bucket, now: int): (Bucket, Decision) {
    if HeldManually(c, b) then (b, Decision(false, None, Open))
    else if b.phase == Open && b.openedAt.Some? then
      var elapsed := now - b.openedAt.value;
      if elapsed < c.cooldownSeconds * 1000 then
        (b, Decision(false, Some(c.cooldownSeconds * 1000 - elapsed), Open))
      else
        (b.(phase := HalfOpen, halfOpenProbeStartedAt := Some(now), lastReason := Some(ProbeAllowed(key))),
         Decision(true, None, HalfOpen))
    else if b.phase == HalfOpen then (b, Decision(true, None, HalfOpen))
    else (b, Decision(true, None, Closed))
  }

  function AfterFailure(key: Key, c: Config, b: Bucket, reason: Text, now: int): Bucket {
    var n := b.consecutiveFailures + 1;
    var b1 := b.(consecutiveFailures := n, lastReason := Some(Raw(reason)));
    if b.phase == HalfOpen then Tripped(b1, ProbeFailed(key, reason), now)
    else if n >= c.failureThreshold then Tripped(b1, TooManyFailures(key, n, reason), now)
    else b1
  }

  function AfterSuccess(b: Bucket): Bucket {
    b.(consecutiveFailures := 0, phase := Closed, openedAt := None, halfOpenProbeStartedAt := None, lastReason := None)
  }

  function Recent(ts: seq<int>, now: int): seq<int> {
    if ts == [] then []
    else if now - ts[0] < WINDOW then [ts[0]] + Recent(ts[1..], now)
    else Recent(ts[1..], now)
  }

  function AfterAttempt(limit: int, b: Bucket, now: int): Bucket {
    var ts := Recent(b.mutatingTimestamps + [now], now);
    var b1 := b.(mutatingTimestamps := ts);
    if |ts| > limit then Tripped(b1, RateExceeded(|ts|, limit), now) else b1
  }

  // ----- The module-level state -----

  class Breakers {
    var buckets: map<Key, Bucket>

    constructor ()
      ensures buckets == map[]
    {
      buckets := map[];
    }

    function BucketOf(key: Key): Bucket
      reads this
    {
      if key in buckets then buckets[key] else FRESH_BUCKET
    }

    method Evaluate(key: Key, policy: Policy, now: int) returns (d: Decision)
      modifies this
      ensures (BucketOf(key), d) == Evaluated(key, CfgFor(key, policy), old(BucketOf(key)), now)
      ensures forall k :: k != key ==> BucketOf(k) == old(BucketOf(k))
    {
      var b := BucketOf(key);
      buckets := buckets[key := b];
      var c := CfgFor(key, policy);
      if c.manualResetRequired && b.phase == Open && StartsManual(b.lastReason) {
        return Decision(false, None, Open);
      }
      if b.phase == Open && b.openedAt.Some? {
        var elapsed := now - b.openedAt.value;
        if elapsed < c.cooldownSeconds * 1000 {
          return Decision(false, Some(c.cooldownSeconds * 1000 - elapsed), Open);
        }
        b := b.(phase := HalfOpen);
        b := b.(halfOpenProbeStartedAt := Some(now));
        b := b.(lastReason := Some(ProbeAllowed(key)));
        buckets := buckets[key := b];
        return Decision(true, None, HalfOpen);
      }
      if b.phase == HalfOpen {
        return Decision(true, None, HalfOpen);
      }
      return Decision(true, None, Closed);
    }

    method TransitionOpen(key: Key, reason: Reason, now: int)
      modifies this
      ensures BucketOf(key) == Tripped(old(BucketOf(key)), reason, now)
      ensures forall k :: k != key ==> BucketOf(k) == old(BucketOf(k))
    {
      var b := BucketOf(key);
      b := b.(phase := Open);
      b := b.(openedAt := Some(now));
      b := b.(lastReason := Some(reason));
      b := b.(halfOpenProbeStartedAt := None);
      buckets := buckets[key := b];
    }

    method RecordFailure(key: Key, policy: Policy, reason: Text, now: int)
      modifies this
      ensures BucketOf(key) == AfterFailure(key, CfgFor(key, policy), old(BucketOf(key)), reason, now)
      ensures forall k :: k != key ==> BucketOf(k) == old(BucketOf(k))
    {
      var b := BucketOf(key);
      var c := CfgFor(key, policy);
      b := b.(consecutiveFailures := b.consecutiveFailures + 1);
      b := b.(lastReason := Some(Raw(reason)));
      buckets := buckets[key := b];
      if b.phase == HalfOpen {
        TransitionOpen(key, ProbeFailed(key, reason), now);
        return;
      }
      if b.consecutiveFailures >= c.failureThreshold {
        TransitionOpen(key, TooManyFailures(key, b.consecutiveFailures, reason), now);
      }
    }

    /** Also the manual reset. */
    method RecordSuccess(key: Key)
      modifies this
      ensures BucketOf(key) == AfterSuccess(old(BucketOf(key)))
      ensures forall k :: k != key ==> BucketOf(k) == old(BucketOf(k))
    {
      var b := BucketOf(key);
      b := b.(consecutiveFailures := 0);
      b := b.(phase := Closed);
      b := b.(openedAt := None);
      b := b.(halfOpenProbeStartedAt := None);
      b := b.(lastReason := None);
      buckets := buckets[key := b];
    }

    method RecordMutatingAttempt(policy: Policy, now: int)
      modifies this
      ensures BucketOf(MutatingPipeline) ==
              AfterAttempt(policy.maxMutatingCommandsPerMinute, old(BucketOf(MutatingPipeline)), now)
      ensures forall k :: k != MutatingPipeline ==> BucketOf(k) == old(BucketOf(k))
    {
      var b := BucketOf(MutatingPipeline);
      b := b.(mutatingTimestamps := b.mutatingTimestamps + [now]);
      b := b.(mutatingTimestamps := Recent(b.mutatingTimestamps, now));
      buckets := buckets[MutatingPipeline := b];
      var max := policy.maxMutatingCommandsPerMinute;
      if |b.mutatingTimestamps| > max {
        TransitionOpen(MutatingPipeline, RateExceeded(|b.mutatingTimestamps|, max), now);
      }
    }

    /** The gate of the execute handler for a mutating command: the attempt is recorded, then the
        breaker decides. */
    method AdmitMutating(policy: Policy, attemptAt: int, evaluateAt: int) returns (admitted: bool)
      modifies this
      ensures (BucketOf(MutatingPipeline), admitted) ==
              Requested(MutatingPipeline, policy, old(BucketOf(MutatingPipeline)), attemptAt, evaluateAt)
      ensures forall k :: k != MutatingPipeline ==> BucketOf(k) == old(BucketOf(k))
    {
      RecordMutatingAttempt(policy, attemptAt);
      var d := Evaluate(MutatingPipeline, policy, evaluateAt);
      admitted := d.allowed;
    }

    method Snapshot(key: Key, policy: Policy, now: int) returns (retryAfterMs: Option<int>, mutatingLastMinute: Option<nat>)
      ensures retryAfterMs == ReportedRetry(CfgFor(key, policy), BucketOf(key), now)
      ensures mutatingLastMinute == if key == MutatingPipeline then Some(|Recent(BucketOf(key).mutatingTimestamps, now)|) else None
    {
      var b := BucketOf(key);
      var c := CfgFor(key, policy);
      retryAfterMs := None;
      if b.phase == Open && b.openedAt.Some? {
        var elapsed := now - b.openedAt.value;
        var left := c.cooldownSeconds * 1000 - elapsed;
        retryAfterMs := Some(if left > 0 then left else 0);
      }
      mutatingLastMinute :=
        if key == MutatingPipeline then Some(|Recent(b.mutatingTimestamps, now)|) else None;
    }
  }

  /** A recorded attempt followed by the breaker's decision. */
  function Requested(key: Key, policy: Policy, b: Bucket, attemptAt: int, evaluateAt: int): (Bucket, bool) {
    var b1 := AfterAttempt(policy.maxMutatingCommandsPerMinute, b, attemptAt);
    var (b2, d) := Evaluated(key, CfgFor(key, policy), b1, evaluateAt);
    (b2, d.allowed)
  }

  /** The remaining time a snapshot reports for an open breaker. */
  function ReportedRetry(c: Config, b: Bucket, now: int): Option<int> {
    if b.phase == Open && b.openedAt.Some? then
      var left := b.openedAt.value + c.cooldownSeconds * 1000 - now;
      Some(if left > 0 then left else 0)
    else None
  }

  // ----- Runs -----

  /** What can happen to one bucket.  Outcomes of commands in flight arrive in any order. */
  datatype Event =
    | Request(attemptAt: int, evaluateAt: int)
    | Evaluation(at: int)
    | Failed(at: int, reason: Text)
    | Succeeded
    | Reset

  function Step(key: Key, policy: Policy, b: Bucket, e: Event): (Bucket, Option<bool>) {
    match e
    case Request(t, u) =>
      var (b1, admitted) := Requested(key, policy, b, t, u);
      (b1, Some(admitted))
    case Evaluation(t) =>
      var (b1, d) := Evaluated(key, CfgFor(key, policy), b, t);
      (b1, Some(d.allowed))
    case Failed(t, reason) => (AfterFailure(key, CfgFor(key, policy), b, reason, t), None)
    case Succeeded => (AfterSuccess(b), None)
    case Reset => (AfterSuccess(b), None)
  }

  function Run(key: Key, policy: Policy, b: Bucket, events: seq<Event>): Bucket {
    if events == [] then b
    else Step(key, policy, Run(key, policy, b, events[..|events| - 1]), events[|events| - 1]).0
  }

  // ----- Reachable states -----

  predicate Consistent(c: Config, b: Bucket) {
    && (b.phase == Closed ==> b.openedAt == None && b.consecutiveFailures < c.failureThreshold)
    && (b.phase != Closed ==> b.openedAt.Some?)
    && (b.halfOpenProbeStartedAt.Some? <==> b.phase == HalfOpen)
  }

  lemma StepConsistent(key: Key, policy: Policy, b: Bucket, e: Event)
    requires CfgFor(key, policy).failureThreshold >= 1 && Consistent(CfgFor(key, policy), b)
    ensures Consistent(CfgFor(key, policy), Step(key, policy, b, e).0)
  {
    match e
    case Request(t, u) => assert Consistent(CfgFor(key, policy), AfterAttempt(policy.maxMutatingCommandsPerMinute, b, t));
    case _ =>
  }

  /** Every reachable bucket is consistent, for every threshold of at least one. */
  lemma {:induction false} ReachableConsistent(key: Key, policy: Policy, events: seq<Event>)
    requires CfgFor(key, policy).failureThreshold >= 1
    ensures Consistent(CfgFor(key, policy), Run(key, policy, FRESH_BUCKET, events))
  {
    if events != [] {
      var k := |events| - 1;
      ReachableConsistent(key, policy, events[..k]);
      StepConsistent(key, policy, Run(key, policy, FRESH_BUCKET, events[..k]), events[k]);
    }
  }

  /** The earliest clock reading of an event, and the one its decision is taken at. */
  predicate NotBefore(e: Event, t: int) {
    match e
    case Request(a, u) => t <= a && t <= u
    case Evaluation(a) => t <= a
    case Failed(a, _) => t <= a
    case _ => true
  }

  predicate DecidedBefore(e: Event, t: int) {
    (e.Request? ==> e.evaluateAt < t) && (e.Evaluation? ==> e.at < t)
  }

  predicate OpenSince(b: Bucket, t: int) {
    b.phase == Open && b.openedAt.Some? && b.openedAt.value >= t
  }

  /** An event that is neither a success nor a reset, after `trippedAt`, decided during the cooldown. */
  predicate DuringCooldown(e: Event, trippedAt: int, cooldownMs: int) {
    !e.Succeeded? && !e.Reset? && NotBefore(e, trippedAt) && DecidedBefore(e, trippedAt + cooldownMs)
  }

  lemma StepDuringCooldown(key: Key, policy: Policy, b: Bucket, trippedAt: int, e: Event)
    requires OpenSince(b, trippedAt)
    requires DuringCooldown(e, trippedAt, CfgFor(key, policy).cooldownSeconds * 1000)
    ensures OpenSince(Step(key, policy, b, e).0, trippedAt) && Step(key, policy, b, e).1 != Some(true)
  {
    match e
    case Request(t, u) => assert OpenSince(AfterAttempt(policy.maxMutatingCommandsPerMinute, b, t), trippedAt);
    case _ =>
  }

  /** No event of the run is a call that is allowed. */
  ghost predicate NoneAllowed(key: Key, policy: Policy, b: Bucket, events: seq<Event>) {
    events == [] ||
    (var k := |events| - 1;
     && NoneAllowed(key, policy, b, events[..k])
     && Step(key, policy, Run(key, policy, b, events[..k]), events[k]).1 != Some(true))
  }

  ghost predicate AllDuringCooldown(events: seq<Event>, trippedAt: int, cooldownMs: int) {
    forall i :: 0 <= i < |events| ==> DuringCooldown(events[i], trippedAt, cooldownMs)
  }

  /** After a trip nothing is allowed before the cooldown is over, whatever else happens, unless
      a success or a reset comes in between. */
  lemma {:induction false} NoCallDuringCooldown(key: Key, policy: Policy, b: Bucket, trippedAt: int, events: seq<Event>)
    requires OpenSince(b, trippedAt)
    requires AllDuringCooldown(events, trippedAt, CfgFor(key, policy).cooldownSeconds * 1000)
    ensures OpenSince(Run(key, policy, b, events), trippedAt)
    ensures NoneAllowed(key, policy, b, events)
    decreases |events|
  {
    if events != [] {
      var k := |events| - 1;
      NoCallDuringCooldown(key, policy, b, trippedAt, events[..k]);
      StepDuringCooldown(key, policy, Run(key, policy, b, events[..k]), trippedAt, events[k]);
    }
  }

  /** A denial that names a retry time names it exactly: left alone, the breaker denies before it
      and allows from it on.  A denial without one lasts until a reset. */
  lemma RetryAfterIsExact(key: Key, c: Config, b: Bucket, now: int)
    requires !Evaluated(key, c, b, now).1.allowed
    ensures Evaluated(key, c, b, now).0 == b
    ensures var r := Evaluated(key, c, b, now).1.retryAfterMs;
            if r.Some? then r.value > 0 && forall t :: Evaluated(key, c, b, t).1.allowed <==> t >= now + r.value
            else HeldManually(c, b) && forall t :: !Evaluated(key, c, b, t).1.allowed
  {
  }

  /** When a call is let through: never under a manual hold, not before the cooldown is over while the
      breaker is open, and otherwise always.  A call changes the bucket only by being the first one
      let through: it makes it half-open, with the probe begun at that time. */
  lemma CallEffect(key: Key, c: Config, b: Bucket, now: int)
    requires Consistent(c, b)
    ensures var (after, d) := Evaluated(key, c, b, now);
            && (d.allowed <==> !HeldManually(c, b) && (b.phase == Open ==> now >= b.openedAt.value + c.cooldownSeconds * 1000))
            && d.phase == after.phase && (d.allowed ==> d.retryAfterMs.None? && d.phase != Open)
            && (b.phase == Open && d.allowed ==>
                  after == b.(phase := HalfOpen, halfOpenProbeStartedAt := Some(now), lastReason := Some(ProbeAllowed(key))))
            && (b.phase != Open || !d.allowed ==> after == b)
  {
  }

  /** A snapshot reports a time to wait exactly for an open breaker, and it is the remaining denial time
      exactly when the breaker is not held manually; held manually it is denied for good. */
  lemma SnapshotRetryExactIff(key: Key, c: Config, b: Bucket, now: int)
    requires Consistent(c, b)
    ensures ReportedRetry(c, b, now).Some? <==> b.phase == Open
    ensures b.phase == Open ==>
      var wait := ReportedRetry(c, b, now).value;
      && wait >= 0
      && ((forall t :: t >= now ==> (Evaluated(key, c, b, t).1.allowed <==> t >= now + wait)) <==> !HeldManually(c, b))
    ensures HeldManually(c, b) ==> forall t :: !Evaluated(key, c, b, t).1.allowed
  {
    if HeldManually(c, b) {
      assert !Evaluated(key, c, b, now + ReportedRetry(c, b, now).value).1.allowed;
    }
  }

  // ----- When it trips, and when it lets through -----

  ghost predicate OnlyFailures(events: seq<Event>) {
    forall i :: 0 <= i < |events| ==> events[i].Failed?
  }

  /** Failures in a row, at whatever times and for whatever reasons, from a closed breaker without
      any: it opens exactly at the threshold, and is then open since the last failure. */
  lemma {:induction false} TripsAtThreshold(key: Key, policy: Policy, b: Bucket, events: seq<Event>)
    requires CfgFor(key, policy).failureThreshold >= 1 && OnlyFailures(events)
    requires b.phase == Closed && b.consecutiveFailures == 0
    ensures var r := Run(key, policy, b, events);
            && (r.phase == Open <==> |events| >= CfgFor(key, policy).failureThreshold)
            && r.phase != HalfOpen && r.consecutiveFailures == |events|
            && (r.phase == Open ==> r.openedAt == Some(events[|events| - 1].at))
    decreases |events|
  {
    if events != [] {
      TripsAtThreshold(key, policy, b, events[..|events| - 1]);
    }
  }

  /** A probe decides: its failure opens the breaker again for a full cooldown, its success closes
      it and forgets the failures; neither touches the rate window. */
  lemma ProbeDecides(key: Key, policy: Policy, b: Bucket, t: int, reason: Text)
    requires b.phase == HalfOpen
    ensures var r := Step(key, policy, b, Failed(t, reason)).0;
            && OpenSince(r, t) && r.mutatingTimestamps == b.mutatingTimestamps
            && forall u :: Evaluated(key, CfgFor(key, policy), r, u).1.allowed <==>
                             u >= t + CfgFor(key, policy).cooldownSeconds * 1000
    ensures Step(key, policy, b, Succeeded).0 == FRESH_BUCKET.(mutatingTimestamps := b.mutatingTimestamps)
  {
  }

  /** The outcomes after the last success or reset. */
  function SinceSuccess(events: seq<Event>): seq<Event> {
    if events == [] then []
    else
      var e := events[|events| - 1];
      if e.Succeeded? || e.Reset? then [] else SinceSuccess(events[..|events| - 1]) + [e]
  }

  function CountFailures(events: seq<Event>): nat {
    if events == [] then 0
    else CountFailures(events[..|events| - 1]) + (if events[|events| - 1].Failed? then 1 else 0)
  }

  lemma OneMoreSince(events: seq<Event>)
    requires events != []
    ensures var e, before := events[|events| - 1], CountFailures(SinceSuccess(events[..|events| - 1]));
            CountFailures(SinceSuccess(events)) ==
              if e.Succeeded? || e.Reset? then 0 else if e.Failed? then before + 1 else before
  {
    var e, since := events[|events| - 1], SinceSuccess(events[..|events| - 1]);
    assert (since + [e])[..|since|] == since;
  }

  lemma StepCounts(key: Key, policy: Policy, b: Bucket, e: Event)
    ensures Step(key, policy, b, e).0.consecutiveFailures ==
            if e.Succeeded? || e.Reset? then 0 else if e.Failed? then b.consecutiveFailures + 1 else b.consecutiveFailures
  {
  }

  /** On every run the failures counted are those since the last success or reset, whatever the state
      of the breaker when it came. */
  lemma {:induction false} FailuresCounted(key: Key, policy: Policy, events: seq<Event>)
    ensures Run(key, policy, FRESH_BUCKET, events).consecutiveFailures == CountFailures(SinceSuccess(events))
    decreases |events|
  {
    if events != [] {
      var k := |events| - 1;
      FailuresCounted(key, policy, events[..k]);
      OneMoreSince(events);
      StepCounts(key, policy, Run(key, policy, FRESH_BUCKET, events[..k]), events[k]);
    }
  }

  /** When the breaker opened last, if it did since the last success or reset: at a request beyond the
      rate limit, a failed probe, or a failure that makes as many as the threshold. */
  function OpenedLast(key: Key, policy: Policy, events: seq<Event>): Option<int> {
    if events == [] then None
    else
      var front := events[..|events| - 1];
      var before := OpenedLast(key, policy, front);
      match events[|events| - 1]
      case Request(t, u) =>
        if OverLimit(policy, Run(key, policy, FRESH_BUCKET, front), events[|events| - 1]) then Some(t) else before
      case Evaluation(_) => before
      case Failed(t, _) =>
        if Run(key, policy, FRESH_BUCKET, front).phase == HalfOpen ||
           CountFailures(SinceSuccess(events)) >= CfgFor(key, policy).failureThreshold then Some(t)
        else before
      case _ => None
  }

  lemma StepOpens(key: Key, policy: Policy, b: Bucket, e: Event)
    ensures Step(key, policy, b, e).0.openedAt ==
            match e
            case Request(t, u) => if OverLimit(policy, b, e) then Some(t) else b.openedAt
            case Evaluation(_) => b.openedAt
            case Failed(t, _) =>
              if b.phase == HalfOpen || b.consecutiveFailures + 1 >= CfgFor(key, policy).failureThreshold then Some(t)
              else b.openedAt
            case _ => None
    ensures (b.phase == Closed <==> b.openedAt.None?) ==>
            (Step(key, policy, b, e).0.phase == Closed <==> Step(key, policy, b, e).0.openedAt.None?)
  {
  }

  /** On every run the cooldown runs from the last opening, and the breaker is closed exactly if there
      was none since the last success or reset. */
  lemma {:induction false} OpenedSince(key: Key, policy: Policy, events: seq<Event>)
    ensures var b := Run(key, policy, FRESH_BUCKET, events);
            b.openedAt == OpenedLast(key, policy, events) && (b.phase == Closed <==> b.openedAt.None?)
    decreases |events|
  {
    if events != [] {
      var front := events[..|events| - 1];
      OpenedSince(key, policy, front);
      FailuresCounted(key, policy, front);
      OneMoreSince(events);
      StepOpens(key, policy, Run(key, policy, FRESH_BUCKET, front), events[|events| - 1]);
    }
  }

  /** The reason kept after a failure: what it made of the breaker, and the failures counted. */
  lemma ReasonTells(key: Key, policy: Policy, events: seq<Event>, e: Event)
    requires e.Failed?
    ensures var b := Run(key, policy, FRESH_BUCKET, events);
            var n := CountFailures(SinceSuccess(events)) + 1;
            Step(key, policy, b, e).0.lastReason ==
              Some(if b.phase == HalfOpen then ProbeFailed(key, e.reason)
                   else if n >= CfgFor(key, policy).failureThreshold then TooManyFailures(key, n, e.reason)
                   else Raw(e.reason))
  {
    FailuresCounted(key, policy, events);
  }

  ghost predicate OnlyOutcomes(events: seq<Event>) {
    forall i :: 0 <= i < |events| ==> events[i].Failed? || events[i].Succeeded? || events[i].Reset?
  }

  /** So, as long as no call is decided, the breaker is open exactly when as many failures as the
      threshold have come since the last success or reset. */
  lemma {:induction false} OutcomesDecide(key: Key, policy: Policy, events: seq<Event>)
    requires CfgFor(key, policy).failureThreshold >= 1 && OnlyOutcomes(events)
    ensures var b := Run(key, policy, FRESH_BUCKET, events);
            && b.phase != HalfOpen
            && (b.phase == Open <==> CountFailures(SinceSuccess(events)) >= CfgFor(key, policy).failureThreshold)
    decreases |events|
  {
    FailuresCounted(key, policy, events);
    if events != [] {
      OutcomesDecide(key, policy, events[..|events| - 1]);
      FailuresCounted(key, policy, events[..|events| - 1]);
    }
  }

  /** A success, and a reset, in whatever state: the breaker is as new but for the rate window, and
      takes as many failures as the threshold to open. */
  lemma SuccessForgets(key: Key, policy: Policy, b: Bucket, e: Event, failures: seq<Event>)
    requires CfgFor(key, policy).failureThreshold >= 1 && OnlyFailures(failures)
    requires e.Succeeded? || e.Reset?
    ensures Step(key, policy, b, e).0 == FRESH_BUCKET.(mutatingTimestamps := b.mutatingTimestamps)
    ensures Run(key, policy, Step(key, policy, b, e).0, failures).phase == Open <==>
            |failures| >= CfgFor(key, policy).failureThreshold
  {
    TripsAtThreshold(key, policy, Step(key, policy, b, e).0, failures);
  }

  /** What is configured for the key, if anything is. */
  function Given(key: Key, policy: Policy): BreakerPolicy {
    if key in policy.breakers then policy.breakers[key] else BreakerPolicy(None, None, None)
  }

  /** The configuration in effect: a new breaker opens at the threshold configured for its key, or else
      at five failures (the limiter at `maxConsecutiveFailures`), and then denies for the cooldown
      configured, or else for a minute.  It is never held manually unless that is configured. */
  lemma DefaultsInEffect(key: Key, policy: Policy, failures: seq<Event>)
    requires OnlyFailures(failures) && failures != []
    ensures var given, last := Given(key, policy), failures[|failures| - 1].at;
            var threshold := match given.failureThreshold
                             case Some(n) => n
                             case None => if key == MutatingPipeline then policy.maxConsecutiveFailures else 5;
            var cooldownMs := match given.cooldownSeconds case Some(n) => n * 1000 case None => 60_000;
            var b := Run(key, policy, FRESH_BUCKET, failures);
            threshold >= 1 ==>
              && (b.phase == Open <==> |failures| >= threshold)
              && (b.phase == Open ==>
                    forall t :: Evaluated(key, CfgFor(key, policy), b, t).1.allowed <==> t >= last + cooldownMs)
    ensures forall b :: HeldManually(CfgFor(key, policy), b) ==> Given(key, policy).manualResetRequired == Some(true)
  {
    if CfgFor(key, policy).failureThreshold >= 1 {
      TripsAtThreshold(key, policy, FRESH_BUCKET, failures);
      LastFailureTrips(key, policy, failures);
    }
  }

  /** An opening failure leaves a reason of the breaker's own. */
  lemma LastFailureTrips(key: Key, policy: Policy, failures: seq<Event>)
    requires CfgFor(key, policy).failureThreshold >= 1 && OnlyFailures(failures) && failures != []
    ensures Run(key, policy, FRESH_BUCKET, failures).phase == Open ==>
            !StartsManual(Run(key, policy, FRESH_BUCKET, failures).lastReason)
  {
    var k := |failures| - 1;
    TripsAtThreshold(key, policy, FRESH_BUCKET, failures[..k]);
    TripsAtThreshold(key, policy, FRESH_BUCKET, failures);
  }

  ghost predicate OnlyEvaluations(events: seq<Event>) {
    forall i :: 0 <= i < |events| ==> events[i].Evaluation?
  }

  /** Every event of the run is a call that is allowed. */
  ghost predicate AllAllowed(key: Key, policy: Policy, b: Bucket, events: seq<Event>) {
    events == [] ||
    (var k := |events| - 1;
     && AllAllowed(key, policy, b, events[..k])
     && Step(key, policy, Run(key, policy, b, events[..k]), events[k]).1 == Some(true))
  }

  /** Half-open is not a single probe: until an outcome is recorded every call is let through. */
  lemma {:induction false} HalfOpenAdmitsEveryCall(key: Key, policy: Policy, b: Bucket, events: seq<Event>)
    requires b.phase == HalfOpen && OnlyEvaluations(events)
    ensures Run(key, policy, b, events) == b && AllAllowed(key, policy, b, events)
    decreases |events|
  {
    if events != [] {
      HalfOpenAdmitsEveryCall(key, policy, b, events[..|events| - 1]);
    }
  }

  predicate IsCall(e: Event) {
    e.Request? || e.Evaluation?
  }

  /** When the breaker decides on a call. */
  function DecidedAt(e: Event): int
    requires IsCall(e)
  {
    if e.Request? then e.evaluateAt else e.at
  }

  /** Calls only, decided one after the other. */
  ghost predicate CallsInOrder(events: seq<Event>) {
    && (forall i :: 0 <= i < |events| ==> IsCall(events[i]))
    && forall i, j :: 0 <= i < j < |events| ==> DecidedAt(events[i]) <= DecidedAt(events[j])
  }

  /** The call is a request beyond the rate limit, which trips the breaker anew. */
  predicate OverLimit(policy: Policy, b: Bucket, e: Event) {
    e.Request? && |Recent(b.mutatingTimestamps + [e.attemptAt], e.attemptAt)| > policy.maxMutatingCommandsPerMinute
  }

  /** When the breaker tripped last: at the last request beyond the rate limit, or else when it was
      found open; never, as long as it is held manually. */
  function LastTrip(key: Key, policy: Policy, b: Bucket, events: seq<Event>): Option<int> {
    if events == [] then
      if HeldManually(CfgFor(key, policy), b) then None else b.openedAt
    else
      var k := |events| - 1;
      if OverLimit(policy, Run(key, policy, b, events[..k]), events[k]) then Some(events[k].attemptAt)
      else LastTrip(key, policy, b, events[..k])
  }

  /** The call is decided when the cooldown since the last trip is over. */
  predicate CooledDown(c: Config, trip: Option<int>, e: Event) {
    IsCall(e) && trip.Some? && DecidedAt(e) >= trip.value + c.cooldownSeconds * 1000
  }

  /** How many of the calls are let through. */
  function AllowedCount(key: Key, policy: Policy, b: Bucket, events: seq<Event>): nat {
    if events == [] then 0
    else
      var k := |events| - 1;
      AllowedCount(key, policy, b, events[..k]) +
      (if Step(key, policy, Run(key, policy, b, events[..k]), events[k]).1 == Some(true) then 1 else 0)
  }

  /** How many of the calls come when the cooldown is over. */
  function DueCount(key: Key, policy: Policy, b: Bucket, events: seq<Event>): nat {
    if events == [] then 0
    else
      var k := |events| - 1;
      DueCount(key, policy, b, events[..k]) +
      (if CooledDown(CfgFor(key, policy), LastTrip(key, policy, b, events), events[k]) then 1 else 0)
  }

  /** A tripped bucket after some calls without an outcome: held as before, or open since the last trip
      as long as none came after the cooldown, else half-open. */
  ghost predicate AfterCalls(c: Config, r: Bucket, trip: Option<int>, events: seq<Event>) {
    if trip.None? then HeldManually(c, r)
    else if events == [] || !CooledDown(c, trip, events[|events| - 1]) then
      r.phase == Open && r.openedAt == trip && !HeldManually(c, r)
    else
      r.phase == HalfOpen
  }

  lemma CallStep(key: Key, policy: Policy, r: Bucket, trip: Option<int>, events: seq<Event>, e: Event)
    requires CallsInOrder(events) && CallsInOrder(events + [e]) && IsCall(e)
    requires AfterCalls(CfgFor(key, policy), r, trip, events)
    ensures var c, last := CfgFor(key, policy), if OverLimit(policy, r, e) then Some(e.attemptAt) else trip;
            && AfterCalls(c, Step(key, policy, r, e).0, last, events + [e])
            && (Step(key, policy, r, e).1 == Some(true) <==> CooledDown(c, last, e))
  {
    var all := events + [e];
    if events != [] {
      assert all[|events| - 1] == events[|events| - 1] && all[|events|] == e;
    }
  }

  lemma InOrderPrefix(events: seq<Event>)
    requires events != [] && CallsInOrder(events)
    ensures var k := |events| - 1; CallsInOrder(events[..k]) && CallsInOrder(events[..k] + [events[k]]) && IsCall(events[k])
  {
    assert events == events[..|events| - 1] + [events[|events| - 1]];
  }

  lemma {:induction false} StateAfterCalls(key: Key, policy: Policy, b: Bucket, events: seq<Event>)
    requires b.phase == Open && b.openedAt.Some? && CallsInOrder(events)
    ensures AfterCalls(CfgFor(key, policy), Run(key, policy, b, events), LastTrip(key, policy, b, events), events)
    decreases |events|
  {
    if events != [] {
      var k := |events| - 1;
      InOrderPrefix(events);
      StateAfterCalls(key, policy, b, events[..k]);
      CallStep(key, policy, Run(key, policy, b, events[..k]), LastTrip(key, policy, b, events[..k]), events[..k], events[k]);
      assert events == events[..k] + [events[k]];
    }
  }

  /** After a trip, before any outcome: the calls let through are exactly those decided when the
      cooldown since the last trip is over, all of them, however many; under a manual hold, none. */
  lemma {:induction false} CallsAfterTrip(key: Key, policy: Policy, b: Bucket, events: seq<Event>)
    requires b.phase == Open && b.openedAt.Some? && CallsInOrder(events)
    ensures AllowedCount(key, policy, b, events) == DueCount(key, policy, b, events)
    decreases |events|
  {
    if events != [] {
      var k := |events| - 1;
      InOrderPrefix(events);
      CallsAfterTrip(key, policy, b, events[..k]);
      StateAfterCalls(key, policy, b, events[..k]);
      CallStep(key, policy, Run(key, policy, b, events[..k]), LastTrip(key, policy, b, events[..k]), events[..k], events[k]);
    }
  }

  /** No request of the run exceeds the rate limit. */
  ghost predicate NoneOverLimit(key: Key, policy: Policy, b: Bucket, events: seq<Event>) {
    events == [] ||
    (var k := |events| - 1;
     NoneOverLimit(key, policy, b, events[..k]) && !OverLimit(policy, Run(key, policy, b, events[..k]), events[k]))
  }

  /** How many of the calls are decided at `due` or later. */
  function DecidedFrom(events: seq<Event>, due: int): nat {
    if events == [] then 0
    else
      var k := |events| - 1;
      DecidedFrom(events[..k], due) + (if IsCall(events[k]) && DecidedAt(events[k]) >= due then 1 else 0)
  }

  /** Without a request beyond the rate limit it is the first trip that counts. */
  lemma {:induction false} FirstTripCounts(key: Key, policy: Policy, b: Bucket, events: seq<Event>)
    requires b.openedAt.Some? && NoneOverLimit(key, policy, b, events)
    ensures LastTrip(key, policy, b, events) == LastTrip(key, policy, b, [])
    ensures DueCount(key, policy, b, events) ==
            if HeldManually(CfgFor(key, policy), b) then 0
            else DecidedFrom(events, b.openedAt.value + CfgFor(key, policy).cooldownSeconds * 1000)
  {
    if events != [] {
      FirstTripCounts(key, policy, b, events[..|events| - 1]);
    }
  }

  /** A single probe is let through exactly when at most one call comes after the cooldown since the
      last trip: without a request beyond the rate limit, the cooldown of the trip found. */
  lemma SingleProbeIff(key: Key, policy: Policy, b: Bucket, events: seq<Event>)
    requires b.phase == Open && b.openedAt.Some? && CallsInOrder(events)
    ensures AllowedCount(key, policy, b, events) <= 1 <==> DueCount(key, policy, b, events) <= 1
    ensures NoneOverLimit(key, policy, b, events) && !HeldManually(CfgFor(key, policy), b) ==>
            (AllowedCount(key, policy, b, events) <= 1 <==>
             DecidedFrom(events, b.openedAt.value + CfgFor(key, policy).cooldownSeconds * 1000) <= 1)
  {
    CallsAfterTrip(key, policy, b, events);
    if NoneOverLimit(key, policy, b, events) {
      FirstTripCounts(key, policy, b, events);
    }
  }

  /** What a hold for a manual reset survives: any call but a request beyond the rate limit, and a
      failure short of the threshold whose reason again begins with MANUAL.  Everything else lifts it
      without a reset. */
  lemma HoldSurvivesIff(key: Key, policy: Policy, b: Bucket, e: Event)
    requires HeldManually(CfgFor(key, policy), b)
    ensures HeldManually(CfgFor(key, policy), Step(key, policy, b, e).0) <==>
            match e
            case Failed(_, reason) => Lit("MANUAL") <= reason && b.consecutiveFailures + 1 < CfgFor(key, policy).failureThreshold
            case _ => IsCall(e) && !OverLimit(policy, b, e)
  {
  }

  // ----- The rate bound -----

  function EndTime(e: Event, before: int): int {
    match e
    case Request(_, u) => u
    case Evaluation(t) => t
    case Failed(t, _) => t
    case _ => before
  }

  /** The clock after the run, started at `origin`. */
  function Clock(origin: int, events: seq<Event>): int {
    if events == [] then origin
    else EndTime(events[|events| - 1], Clock(origin, events[..|events| - 1]))
  }

  /** Between recording the attempt and deciding, less than a cooldown passes. */
  predicate Prompt(cooldownMs: int, e: Event) {
    e.Request? ==> e.attemptAt <= e.evaluateAt && (e.evaluateAt == e.attemptAt || e.evaluateAt < e.attemptAt + cooldownMs)
  }

  /** The clock never runs backwards and requests are prompt. */
  ghost predicate Timed(cooldownMs: int, origin: int, events: seq<Event>) {
    events == [] ||
    (var k := |events| - 1;
     && Timed(cooldownMs, origin, events[..k])
     && NotBefore(events[k], Clock(origin, events[..k]))
     && Prompt(cooldownMs, events[k]))
  }

  function Attempts(events: seq<Event>): seq<int> {
    if events == [] then []
    else
      var k := |events| - 1;
      Attempts(events[..k]) + (if events[k].Request? then [events[k].attemptAt] else [])
  }

  /** The attempt times of the mutating commands that were let through. */
  function Admitted(policy: Policy, events: seq<Event>): seq<int> {
    if events == [] then []
    else
      var k := |events| - 1;
      var e := events[k];
      var here := Step(MutatingPipeline, policy, Run(MutatingPipeline, policy, FRESH_BUCKET, events[..k]), e).1;
      Admitted(policy, events[..k]) + (if e.Request? && here == Some(true) then [e.attemptAt] else [])
  }

  function CountFrom(ts: seq<int>, from: int): nat {
    if ts == [] then 0
    else CountFrom(ts[..|ts| - 1], from) + (if ts[|ts| - 1] >= from then 1 else 0)
  }

  /** How many of the times lie in the half-open interval from `from` to `to`. */
  function CountIn(ts: seq<int>, from: int, to: int): nat {
    if ts == [] then 0
    else CountIn(ts[..|ts| - 1], from, to) + (if from <= ts[|ts| - 1] < to then 1 else 0)
  }

  lemma CountFromAppend(ts: seq<int>, t: int, from: int)
    ensures CountFrom(ts + [t], from) == CountFrom(ts, from) + (if t >= from then 1 else 0)
  {
    assert (ts + [t])[..|ts|] == ts;
  }

  lemma CountInAppend(ts: seq<int>, t: int, from: int, to: int)
    ensures CountIn(ts + [t], from, to) == CountIn(ts, from, to) + (if from <= t < to then 1 else 0)
  {
    assert (ts + [t])[..|ts|] == ts;
  }

  lemma {:induction false} CountFromPrepend(t: int, ts: seq<int>, from: int)
    ensures CountFrom([t] + ts, from) == (if t >= from then 1 else 0) + CountFrom(ts, from)
  {
    if ts == [] {
      assert [t] + ts == [t] && [t][..0] == [];
    } else {
      var k := |ts| - 1;
      assert ([t] + ts)[..|ts|] == [t] + ts[..k];
      CountFromPrepend(t, ts[..k], from);
    }
  }

  /** Pruning keeps every timestamp of the last window. */
  lemma {:induction false} RecentCounts(ts: seq<int>, now: int)
    ensures |Recent(ts, now)| == CountFrom(ts, now - WINDOW + 1)
    ensures forall from :: from > now - WINDOW ==> CountFrom(Recent(ts, now), from) == CountFrom(ts, from)
  {
    if ts != [] {
      RecentCounts(ts[1..], now);
      assert ts == [ts[0]] + ts[1..];
      CountFromPrepend(ts[0], ts[1..], now - WINDOW + 1);
      forall from | from > now - WINDOW
        ensures CountFrom(Recent(ts, now), from) == CountFrom(ts, from)
      {
        CountFromPrepend(ts[0], ts[1..], from);
        CountFromPrepend(ts[0], Recent(ts[1..], now), from);
      }
    }
  }

  lemma {:induction false} CountFromMonotone(ts: seq<int>, from: int, lower: int)
    requires lower <= from
    ensures CountFrom(ts, from) <= CountFrom(ts, lower)
  {
    if ts != [] {
      CountFromMonotone(ts[..|ts| - 1], from, lower);
    }
  }

  lemma {:induction false} CountInBelowCountFrom(ts: seq<int>, from: int, to: int)
    ensures CountIn(ts, from, to) <= CountFrom(ts, from)
  {
    if ts != [] {
      CountInBelowCountFrom(ts[..|ts| - 1], from, to);
    }
  }

  lemma {:induction false} AdmittedAreAttempts(policy: Policy, events: seq<Event>, from: int)
    ensures CountFrom(Admitted(policy, events), from) <= CountFrom(Attempts(events), from)
  {
    if events != [] {
      var k := |events| - 1;
      AdmittedAreAttempts(policy, events[..k], from);
      if events[k].Request? {
        CountFromAppend(Attempts(events[..k]), events[k].attemptAt, from);
        CountFromAppend(Admitted(policy, events[..k]), events[k].attemptAt, from);
      }
      assert Admitted(policy, events[..k]) + [] == Admitted(policy, events[..k]);
      assert Attempts(events[..k]) + [] == Attempts(events[..k]);
    }
  }

  /** Nothing but an attempt ever changes the timestamps; in particular no success and no reset. */
  lemma StepTimestamps(key: Key, policy: Policy, b: Bucket, e: Event)
    ensures Step(key, policy, b, e).0.mutatingTimestamps ==
            if e.Request? then Recent(b.mutatingTimestamps + [e.attemptAt], e.attemptAt) else b.mutatingTimestamps
  {
  }

  lemma AttemptCounts(ts: seq<int>, t: int, from: int)
    requires from > t - WINDOW
    ensures CountFrom(Recent(ts + [t], t), from) == CountFrom(ts, from) + (if t >= from then 1 else 0)
  {
    RecentCounts(ts + [t], t);
    CountFromAppend(ts, t, from);
  }

  /** The bucket's timestamps are all the attempts of the last window, admitted or not. */
  lemma {:induction false} TimestampsKeepTheWindow(policy: Policy, cooldownMs: int, origin: int, events: seq<Event>, from: int)
    requires Timed(cooldownMs, origin, events)
    requires from > Clock(origin, events) - 60_000
    ensures CountFrom(Run(MutatingPipeline, policy, FRESH_BUCKET, events).mutatingTimestamps, from) ==
            CountFrom(Attempts(events), from)
    decreases |events|
  {
    if events != [] {
      var k := |events| - 1;
      var e := events[k];
      var b := Run(MutatingPipeline, policy, FRESH_BUCKET, events[..k]);
      ClockMonotone(cooldownMs, origin, events);
      TimestampsKeepTheWindow(policy, cooldownMs, origin, events[..k], from);
      StepTimestamps(MutatingPipeline, policy, b, e);
      if e.Request? {
        AttemptCounts(b.mutatingTimestamps, e.attemptAt, from);
        CountFromAppend(Attempts(events[..k]), e.attemptAt, from);
      } else {
        assert Attempts(events) == Attempts(events[..k]);
      }
    }
  }

  /** The number a snapshot of the limiter shows is that of the attempts of the last minute. */
  lemma SnapshotCounts(policy: Policy, cooldownMs: int, origin: int, events: seq<Event>, now: int)
    requires Timed(cooldownMs, origin, events) && now >= Clock(origin, events)
    ensures |Recent(Run(MutatingPipeline, policy, FRESH_BUCKET, events).mutatingTimestamps, now)| ==
            CountFrom(Attempts(events), now - 59_999)
  {
    RecentCounts(Run(MutatingPipeline, policy, FRESH_BUCKET, events).mutatingTimestamps, now);
    TimestampsKeepTheWindow(policy, cooldownMs, origin, events, now - 59_999);
  }

  lemma ClockMonotone(cooldownMs: int, origin: int, events: seq<Event>)
    requires events != [] && Timed(cooldownMs, origin, events)
    ensures Clock(origin, events[..|events| - 1]) <= Clock(origin, events)
    ensures events[|events| - 1].Request? ==> events[|events| - 1].attemptAt <= Clock(origin, events)
  {
  }

  /** An attempt that finds more than the limit in the last window is denied at once. */
  lemma OverLimitDenied(policy: Policy, b: Bucket, t: int, u: int)
    requires CfgFor(MutatingPipeline, policy).cooldownSeconds > 0
    requires Prompt(CfgFor(MutatingPipeline, policy).cooldownSeconds * 1000, Request(t, u))
    ensures |Recent(b.mutatingTimestamps + [t], t)| > policy.maxMutatingCommandsPerMinute ==> !Requested(MutatingPipeline, policy, b, t, u).1
  {
  }

  /** A closed breaker admits a request exactly when the window is within the limit. */
  lemma ClosedAdmitsIff(policy: Policy, b: Bucket, t: int, u: int)
    requires CfgFor(MutatingPipeline, policy).cooldownSeconds > 0
    requires Prompt(CfgFor(MutatingPipeline, policy).cooldownSeconds * 1000, Request(t, u))
    requires b.phase == Closed
    ensures Requested(MutatingPipeline, policy, b, t, u).1 <==>
            CountFrom(b.mutatingTimestamps, t - 59_999) + 1 <= policy.maxMutatingCommandsPerMinute
  {
    KeptCount(b.mutatingTimestamps, t);
  }

  function AtLeastZero(n: int): nat {
    if n < 0 then 0 else n
  }

  /** The rate bound: with a positive cooldown, no half-open window of 60 seconds ever sees more
      than the limit of admitted mutating commands, for every interleaving of requests, outcomes
      and resets. */
  lemma {:induction false} RateBound(policy: Policy, origin: int, events: seq<Event>, w: int)
    requires CfgFor(MutatingPipeline, policy).cooldownSeconds > 0
    requires Timed(CfgFor(MutatingPipeline, policy).cooldownSeconds * 1000, origin, events)
    ensures CountIn(Admitted(policy, events), w, w + 60_000) <= AtLeastZero(policy.maxMutatingCommandsPerMinute)
    decreases |events|
  {
    if events != [] {
      var k := |events| - 1;
      var e := events[k];
      RateBound(policy, origin, events[..k], w);
      if Admitted(policy, events) == Admitted(policy, events[..k]) {
      } else {
        LastAdmission(policy, origin, events, w);
      }
    }
  }

  lemma LastAdmission(policy: Policy, origin: int, events: seq<Event>, w: int)
    requires CfgFor(MutatingPipeline, policy).cooldownSeconds > 0
    requires Timed(CfgFor(MutatingPipeline, policy).cooldownSeconds * 1000, origin, events)
    requires events != [] && Admitted(policy, events) != Admitted(policy, events[..|events| - 1])
    requires CountIn(Admitted(policy, events[..|events| - 1]), w, w + WINDOW) <= AtLeastZero(policy.maxMutatingCommandsPerMinute)
    ensures CountIn(Admitted(policy, events), w, w + WINDOW) <= AtLeastZero(policy.maxMutatingCommandsPerMinute)
  {
    var cd := CfgFor(MutatingPipeline, policy).cooldownSeconds * 1000;
    var k := |events| - 1;
    var e := events[k];
    var front := events[..k];
    assert e.Request? && Admitted(policy, events) == Admitted(policy, front) + [e.attemptAt];
    var t := e.attemptAt;
    CountInAppend(Admitted(policy, front), t, w, w + WINDOW);
    if w <= t < w + WINDOW {
      WindowOfAttempt(policy, cd, origin, events, w);
    }
  }

  lemma KeptCount(ts: seq<int>, t: int)
    ensures |Recent(ts + [t], t)| == CountFrom(ts, t - WINDOW + 1) + 1
  {
    CountFromAppend(ts, t, t - WINDOW + 1);
    RecentCounts(ts + [t], t);
  }

  /** The attempts of the window that ends with an attempt are the timestamps kept after it. */
  lemma AttemptsKept(policy: Policy, cd: int, origin: int, front: seq<Event>, e: Event)
    requires e.Request? && Timed(cd, origin, front) && NotBefore(e, Clock(origin, front))
    ensures CountFrom(Attempts(front) + [e.attemptAt], e.attemptAt - WINDOW + 1) ==
            |Recent(Run(MutatingPipeline, policy, FRESH_BUCKET, front).mutatingTimestamps + [e.attemptAt], e.attemptAt)|
  {
    var t := e.attemptAt;
    var low := t - WINDOW + 1;
    var ts := Run(MutatingPipeline, policy, FRESH_BUCKET, front).mutatingTimestamps;
    CountFromAppend(Attempts(front), t, low);
    TimestampsKeepTheWindow(policy, cd, origin, front, low);
    KeptCount(ts, t);
  }

  /** What was admitted in a window around `t` was attempted in the window that ends with `t`, or later. */
  lemma WindowCounts(policy: Policy, events: seq<Event>, t: int, w: int)
    requires t < w + WINDOW
    ensures CountIn(Admitted(policy, events), w, w + WINDOW) <= CountFrom(Attempts(events), t - WINDOW + 1)
  {
    CountInBelowCountFrom(Admitted(policy, events), w, w + WINDOW);
    AdmittedAreAttempts(policy, events, w);
    CountFromMonotone(Attempts(events), w, t - WINDOW + 1);
  }

  /** At an admission the window that ends with it holds at most the limit of attempts. */
  lemma WindowOfAttempt(policy: Policy, cd: int, origin: int, events: seq<Event>, w: int)
    requires cd == CfgFor(MutatingPipeline, policy).cooldownSeconds * 1000 > 0
    requires Timed(cd, origin, events)
    requires events != [] && events[|events| - 1].Request?
    requires w <= events[|events| - 1].attemptAt < w + WINDOW
    requires Requested(MutatingPipeline, policy, Run(MutatingPipeline, policy, FRESH_BUCKET, events[..|events| - 1]),
                       events[|events| - 1].attemptAt, events[|events| - 1].evaluateAt).1
    ensures CountIn(Admitted(policy, events), w, w + WINDOW) <= policy.maxMutatingCommandsPerMinute
  {
    var k := |events| - 1;
    var e := events[k];
    var front := events[..k];
    WindowCounts(policy, events, e.attemptAt, w);
    assert Attempts(events) == Attempts(front) + [e.attemptAt];
    AttemptsKept(policy, cd, origin, front, e);
    OverLimitDenied(policy, Run(MutatingPipeline, policy, FRESH_BUCKET, front), e.attemptAt, e.evaluateAt);
  }

  // ----- The positive cooldown is needed -----

  function Burst(n: nat): seq<Event> {
    seq(n, _ => Request(0, 0))
  }

  lemma {:induction false} BurstAdmitted(policy: Policy, n: nat)
    requires CfgFor(MutatingPipeline, policy).cooldownSeconds <= 0
    ensures Timed(CfgFor(MutatingPipeline, policy).cooldownSeconds * 1000, 0, Burst(n)) && Clock(0, Burst(n)) == 0
    ensures CountIn(Admitted(policy, Burst(n)), 0, WINDOW) == n
    ensures NeverRaw(Run(MutatingPipeline, policy, FRESH_BUCKET, Burst(n)))
  {
    if n > 0 {
      var events := Burst(n);
      assert events[..n - 1] == Burst(n - 1);
      BurstAdmitted(policy, n - 1);
      var b := Run(MutatingPipeline, policy, FRESH_BUCKET, Burst(n - 1));
      ZeroCooldownAllows(policy, b);
      CountInAppend(Admitted(policy, Burst(n - 1)), 0, 0, WINDOW);
    }
  }

  predicate NeverRaw(b: Bucket) {
    (b.lastReason.Some? ==> !b.lastReason.value.Raw?) && (b.openedAt.Some? ==> b.openedAt.value <= 0)
  }

  lemma ZeroCooldownAllows(policy: Policy, b: Bucket)
    requires CfgFor(MutatingPipeline, policy).cooldownSeconds <= 0 && NeverRaw(b)
    ensures var (b1, ok) := Step(MutatingPipeline, policy, b, Request(0, 0)); ok == Some(true) && NeverRaw(b1)
  {
  }

  predicate WithinLimit(policy: Policy, events: seq<Event>, w: int) {
    CountIn(Admitted(policy, events), w, w + 60_000) <= AtLeastZero(policy.maxMutatingCommandsPerMinute)
  }

  ghost predicate RateBounded(policy: Policy) {
    var cooldownMs := CfgFor(MutatingPipeline, policy).cooldownSeconds * 1000;
    forall origin, events, w :: Timed(cooldownMs, origin, events) ==> WithinLimit(policy, events, w)
  }

  /** The limiter bounds the rate of every run exactly when the cooldown is positive. */
  lemma RateBoundedIffCooldown(policy: Policy)
    ensures RateBounded(policy) <==> CfgFor(MutatingPipeline, policy).cooldownSeconds > 0
  {
    var cooldownMs := CfgFor(MutatingPipeline, policy).cooldownSeconds * 1000;
    if CfgFor(MutatingPipeline, policy).cooldownSeconds > 0 {
      forall origin, events, w | Timed(cooldownMs, origin, events)
        ensures WithinLimit(policy, events, w)
      {
        RateBound(policy, origin, events, w);
      }
    } else {
      var n := AtLeastZero(policy.maxMutatingCommandsPerMinute) + 1;
      BurstAdmitted(policy, n);
      assert Timed(cooldownMs, 0, Burst(n)) && !WithinLimit(policy, Burst(n), 0);
    }
  }

  // ----- When a snapshot's retry time can be wrong -----

  /** Some timed run of the limiter ends held for a manual reset while a snapshot, taken then or
      later, reports a positive time to wait. */
  ghost predicate Misreports(policy: Policy) {
    exists origin, events, now :: MisreportedAt(policy, origin, events, now)
  }

  ghost predicate MisreportedAt(policy: Policy, origin: int, events: seq<Event>, now: int) {
    var c, b := CfgFor(MutatingPipeline, policy), Run(MutatingPipeline, policy, FRESH_BUCKET, events);
    && Timed(c.cooldownSeconds * 1000, origin, events) && now >= Clock(origin, events)
    && HeldManually(c, b) && ReportedRetry(c, b, now).Some? && ReportedRetry(c, b, now).value > 0
  }

  /** That happens exactly where manual resets are required, a single failure does not trip the breaker
      and the cooldown is positive: the requests beyond the limit open it, and a failure still in
      flight, with a reason that begins with MANUAL, then holds it. */
  lemma MisreportsIff(policy: Policy)
    ensures var c := CfgFor(MutatingPipeline, policy);
            Misreports(policy) <==> c.manualResetRequired && c.failureThreshold >= 2 && c.cooldownSeconds > 0
  {
    var c := CfgFor(MutatingPipeline, policy);
    if c.manualResetRequired && c.failureThreshold >= 2 && c.cooldownSeconds > 0 {
      HoldReached(policy);
    }
    forall origin, events, now | MisreportedAt(policy, origin, events, now)
      ensures c.failureThreshold >= 2 && c.cooldownSeconds > 0
    {
      OpenedInThePast(policy, c.cooldownSeconds * 1000, origin, events);
      if c.failureThreshold < 2 {
        EveryFailureTrips(policy, events);
      }
    }
  }

  lemma {:induction false} OpenedInThePast(policy: Policy, cooldownMs: int, origin: int, events: seq<Event>)
    requires Timed(cooldownMs, origin, events)
    ensures var b := Run(MutatingPipeline, policy, FRESH_BUCKET, events);
            b.openedAt.Some? ==> b.openedAt.value <= Clock(origin, events)
    decreases |events|
  {
    if events != [] {
      OpenedInThePast(policy, cooldownMs, origin, events[..|events| - 1]);
    }
  }

  /** With a threshold below two no raw reason is ever kept. */
  lemma {:induction false} EveryFailureTrips(policy: Policy, events: seq<Event>)
    requires CfgFor(MutatingPipeline, policy).failureThreshold < 2
    ensures !StartsManual(Run(MutatingPipeline, policy, FRESH_BUCKET, events).lastReason)
    decreases |events|
  {
    if events != [] {
      EveryFailureTrips(policy, events[..|events| - 1]);
    }
  }

  function Zeros(n: nat): seq<int> {
    seq(n, _ => 0)
  }

  lemma {:induction false} ZerosAreRecent(n: nat)
    ensures Recent(Zeros(n), 0) == Zeros(n)
  {
    if n > 0 {
      assert Zeros(n)[1..] == Zeros(n - 1);
      ZerosAreRecent(n - 1);
      assert [0] + Zeros(n - 1) == Zeros(n);
    }
  }

  /** Requests at one time up to the limit fill the window and nothing else. */
  lemma {:induction false} BurstFills(policy: Policy, n: nat)
    requires n <= AtLeastZero(policy.maxMutatingCommandsPerMinute)
    ensures Run(MutatingPipeline, policy, FRESH_BUCKET, Burst(n)) == FRESH_BUCKET.(mutatingTimestamps := Zeros(n))
    ensures Timed(CfgFor(MutatingPipeline, policy).cooldownSeconds * 1000, 0, Burst(n)) && Clock(0, Burst(n)) == 0
  {
    if n > 0 {
      assert Burst(n)[..n - 1] == Burst(n - 1);
      BurstFills(policy, n - 1);
      assert Zeros(n - 1) + [0] == Zeros(n);
      ZerosAreRecent(n);
    }
  }

  lemma HoldReached(policy: Policy)
    requires CfgFor(MutatingPipeline, policy).manualResetRequired
    requires CfgFor(MutatingPipeline, policy).failureThreshold >= 2 && CfgFor(MutatingPipeline, policy).cooldownSeconds > 0
    ensures MisreportedAt(policy, 0, Burst(AtLeastZero(policy.maxMutatingCommandsPerMinute) + 1) + [Failed(0, Lit("MANUAL"))], 0)
  {
    var m := AtLeastZero(policy.maxMutatingCommandsPerMinute);
    var filled := Burst(m + 1);
    var events := filled + [Failed(0, Lit("MANUAL"))];
    assert filled[..m] == Burst(m) && events[..m + 1] == filled;
    BurstFills(policy, m);
    assert Timed(CfgFor(MutatingPipeline, policy).cooldownSeconds * 1000, 0, filled) && Clock(0, filled) == 0;
    assert Zeros(m) + [0] == Zeros(m + 1);
    ZerosAreRecent(m + 1);
    var b := Run(MutatingPipeline, policy, FRESH_BUCKET, filled);
    assert b.phase == Open && b.openedAt == Some(0) && b.consecutiveFailures == 0;
  }
}
