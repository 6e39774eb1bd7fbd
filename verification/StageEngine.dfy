/** The stages of agent/local_executor.py: what one call of a stage function writes into the report,
    and the retry loop around it (failure classes of agent/executor_failure.py).
 */
module StageEngine {
  import opened Common
  import opened Texts

  datatype FailureClass =
    | EnvTransient | BuildTransient | NetworkTransient
    | BuildStructural | TestStructural | RuntimeStructural | VisualStructural

  predicate Structural(f: FailureClass) {
    f.BuildStructural? || f.TestStructural? || f.RuntimeStructural? || f.VisualStructural?
  }

  predicate Transient(f: FailureClass) {
    f.EnvTransient? || f.BuildTransient? || f.NetworkTransient?
  }

  // ----- The setting of a run -----

  datatype Platform = Android | Web | Ios

  datatype QualityGate = QualityGate(
    buildSuccessRequired: bool,
    testPassRequired: bool,
    paparazziVerifyRequired: bool,
    paparazziDiffFailsGate: bool,
    runtimeSmokeRequired: bool,
    minScreenshots: Option<int>)

  /** What the normalised payload and the process environment say.  `capture` is the payload's
      `runtime_capture_enabled`, if it is given. */
  datatype Setup = Setup(
    platform: Platform,
    dryRun: bool,
    paparazziEnabled: bool,
    recording: bool,
    capture: Option<bool>,
    gate: QualityGate)

  /** Which of the files that count as evidence are there. */
  datatype Files = Files(taskReport: bool, environmentSnapshot: bool, deviceContext: bool, runtimeProfile: bool)

  /** Everything the engine does not decide itself.  The functions answer by the number of the stage
      call: whether its tool succeeds, whether a screenshot diff is found, whether a device screenshot
      is taken, and how a failure is classified.  `leftover` are the files of a former run under the
      same run id. */
  datatype World = World(
    setup: Setup,
    leftover: Files,
    sourceOk: bool,
    envOk: bool,
    iosChecksOk: bool,
    passes: nat -> bool,
    diff: nat -> bool,
    captured: nat -> bool,
    classify: nat -> FailureClass)

  datatype Stage = Source | Env | Build | Test | Screenshot | Runtime

  /** `report["status"]`: every stage call writes it, and so does the final report. */
  datatype Status = Running(stage: Stage) | StageFailed(stage: Stage) | Succeeded

  datatype Paparazzi = Paparazzi(ran: bool, diffFound: bool)

  datatype Smoke = Smoke(success: bool, screenshots: nat)

  /** The files, and the parts of the report, that the validator and the gate look at. */
  datatype Evidence = Evidence(
    files: Files,
    buildSuccess: bool,
    testSuccess: bool,
    paparazzi: Paparazzi,
    runtime: Smoke,
    iosChecksFailed: bool)

  // ----- One stage call -----

  predicate SkipsScreenshots(s: Setup) {
    !s.platform.Android? || !s.paparazziEnabled
  }

  /** Screenshots are captured unless the payload says otherwise. */
  predicate Captures(s: Setup) {
    s.capture.None? || s.capture.value
  }

  /** Whether the call passes: some stages pass unasked on some platforms or in a dry run, and a
      screenshot comparison fails on a difference unless it records. */
  predicate Passes(w: World, stage: Stage, call: nat) {
    match stage
    case Screenshot =>
      SkipsScreenshots(w.setup) || w.setup.dryRun || (w.passes(call) && (w.setup.recording || !w.diff(call)))
    case Runtime => !w.setup.platform.Android? || w.passes(call)
    case _ => w.setup.dryRun || w.setup.platform.Ios? || w.passes(call)
  }

  /** Which stages can fail at all: on iOS none but the checks before them, in a dry run none of build,
      test and screenshots, and screenshots and the smoke run on Android only. */
  lemma CanFailIff(s: Setup, stage: Stage)
    ensures (exists w: World, call: nat :: w.setup == s && !Passes(w, stage, call)) <==>
            match stage
            case Screenshot => s.platform.Android? && s.paparazziEnabled && !s.dryRun
            case Runtime => s.platform.Android?
            case _ => !s.dryRun && !s.platform.Ios?
  {
    var none := (call: nat) => false;
    var w := World(s, Files(false, false, false, false), false, false, false, none, none, none, (call: nat) => EnvTransient);
    assert w.setup == s;
    assert Passes(w, stage, 0) || !Passes(w, stage, 0);
  }

  /** Where a stage can fail, its tool decides; a screenshot comparison that does not record fails on a
      difference as well. */
  lemma ToolDecides(w: World, stage: Stage, call: nat)
    ensures w.setup.platform.Android? && !w.setup.dryRun && (stage.Screenshot? ==> w.setup.paparazziEnabled) ==>
      (Passes(w, stage, call) <==> w.passes(call) && (stage.Screenshot? && !w.setup.recording ==> !w.diff(call)))
    ensures w.setup.platform.Web? && !w.setup.dryRun && (stage.Build? || stage.Test?) ==>
      (Passes(w, stage, call) <==> w.passes(call))
  {
  }

  /** What a call leaves in the report. */
  function Wrote(w: World, stage: Stage, call: nat, e: Evidence): Evidence {
    match stage
    case Build => e.(buildSuccess := Passes(w, stage, call))
    case Test => e.(testSuccess := Passes(w, stage, call))
    case Screenshot =>
      if SkipsScreenshots(w.setup) then e.(paparazzi := e.paparazzi.(ran := false))
      else if w.setup.dryRun then e
      else e.(paparazzi := Paparazzi(true, w.diff(call)))
    case Runtime =>
      var ok := Passes(w, stage, call);
      var taken := ok && w.setup.platform.Android? && Captures(w.setup) && w.captured(call);
      e.(runtime := Smoke(ok, if taken then 1 else 0))
    case _ => e
  }

  /** One call of a stage function: it announces itself in the status, overwrites that with its
      failure if it does not pass, and leaves its evidence. */
  method CallStage(w: World, stage: Stage, call: nat, before: Evidence) returns (ok: bool, status: Status, e: Evidence)
    ensures ok <==> Passes(w, stage, call)
    ensures status == if ok then Running(stage) else StageFailed(stage)
    ensures e == Wrote(w, stage, call, before)
  {
    status, e := Running(stage), before;
    match stage {
      case Screenshot =>
        if SkipsScreenshots(w.setup) {
          e := e.(paparazzi := e.paparazzi.(ran := false));
          ok := true;
        } else if w.setup.dryRun {
          ok := true;
        } else {
          var exitedOk, diff := w.passes(call), w.diff(call);
          ok := if w.setup.recording then exitedOk else exitedOk && !diff;
          e := e.(paparazzi := Paparazzi(true, diff));
        }
      case Runtime =>
        ok := !w.setup.platform.Android? || w.passes(call);
        var shots := 0;
        if ok && w.setup.platform.Android? && Captures(w.setup) && w.captured(call) {
          shots := 1;
        }
        e := e.(runtime := Smoke(ok, shots));
      case _ =>
        ok := w.setup.dryRun || w.setup.platform.Ios? || w.passes(call);
        if stage.Build? {
          e := e.(buildSuccess := ok);
        } else if stage.Test? {
          e := e.(testSuccess := ok);
        }
    }
    if !ok {
      status := StageFailed(stage);
    }
  }

  // ----- The retry loop -----

  /** The stage calls and the failure classifier, by the number of the call. */
  datatype Oracle = Oracle(passes: nat -> bool, classify: nat -> FailureClass)

  function OracleOf(w: World, stage: Stage): Oracle {
    Oracle((call: nat) => Passes(w, stage, call), w.classify)
  }

  ghost predicate Answers(o: Oracle, w: World, stage: Stage) {
    && o.classify == w.classify
    && forall call: nat {:trigger Passes(w, stage, call)} :: CallPasses(o, call) == Passes(w, stage, call)
  }

  predicate CallPasses(o: Oracle, call: nat) {
    (o.passes)(call)
  }

  /** `int(policy.get(key) or default)`: absent and zero both mean the default. */
  function Limit(given: Option<int>, default: int): int {
    if given.None? || given.value == 0 then default else given.value
  }

  datatype StageRun = StageRun(ok: bool, calls: nat, analyses: seq<FailureClass>, applied: seq<Text>)

  /** After its failure number `n`, a stage of failure class `f` may be called again. */
  predicate MayRetry(f: FailureClass, n: nat, cap: int) {
    Transient(f) || (Structural(f) && n < cap)
  }

  /** Every failure class is transient or structural, never both.  A stage is called again after any
      transient failure, and after a structural one only up to the cap: with the default cap never. */
  lemma RetryByClass(f: FailureClass, n: nat, given: Option<int>)
    requires n >= 1
    ensures f in {EnvTransient, BuildTransient, NetworkTransient} ==> MayRetry(f, n, Limit(given, 1))
    ensures f in {BuildStructural, TestStructural, RuntimeStructural, VisualStructural} ==>
              (MayRetry(f, n, Limit(given, 1)) <==> given.Some? && n < given.value)
    ensures f in {EnvTransient, BuildTransient, NetworkTransient} <==>
              f !in {BuildStructural, TestStructural, RuntimeStructural, VisualStructural}
  {
  }

  function TransientCount(analyses: seq<FailureClass>): nat {
    if analyses == [] then 0
    else TransientCount(analyses[..|analyses| - 1]) + (if Transient(analyses[|analyses| - 1]) then 1 else 0)
  }

  /** All recipes, in order, after a transient failure; none after another one. */
  function Applied(f: FailureClass, recipes: seq<Text>, before: seq<Text>): seq<Text> {
    if Transient(f) then before + recipes else before
  }

  /** The recipes applied after the failures recorded: all of them, in order, after each transient one. */
  function Remedies(analyses: seq<FailureClass>, recipes: seq<Text>): seq<Text> {
    if analyses == [] then []
    else
      var k := |analyses| - 1;
      Applied(analyses[k], recipes, Remedies(analyses[..k], recipes))
  }

  /** A run of one retried stage from call `c`: at most `limit` calls; every failed call is
      analysed, once; a call follows a failure only if that failure may be retried; the run ends
      in success, or at a failure that may not be retried, or at the limit. */
  ghost predicate RunOf(r: StageRun, o: Oracle, c: nat, limit: int, cap: int, recipes: seq<Text>) {
    var fails := |r.analyses|;
    && r.calls == fails + (if r.ok then 1 else 0)
    && (r.calls == 0 || r.calls <= limit)
    && FailedCalls(o, c, r.analyses)
    && (r.ok ==> CallPasses(o, c + fails))
    && AllRetried(r.analyses, r.calls - 1, cap)
    && (!r.ok && fails < limit ==> fails > 0 && !MayRetry(r.analyses[fails - 1], fails, cap))
    && r.applied == Remedies(r.analyses, recipes)
  }

  /** Each failure before call `n + 1` allowed the retry that followed. */
  ghost predicate AllRetried(analyses: seq<FailureClass>, n: int, cap: int) {
    forall i :: 0 <= i < |analyses| && i < n ==> MayRetry(analyses[i], i + 1, cap)
  }

  /** The calls from `c` on failed, one for each analysis, with these classes. */
  ghost predicate FailedCalls(o: Oracle, c: nat, analyses: seq<FailureClass>) {
    forall i :: 0 <= i < |analyses| ==> FailedCall(o, c, i, analyses[i])
  }

  predicate FailedCall(o: Oracle, c: nat, i: nat, f: FailureClass) {
    !CallPasses(o, c + i) && f == (o.classify)(c + i)
  }

  /** What the calls of a stage leave in the report: what the last one wrote. */
  function Left(w: World, stage: Stage, c: nat, calls: nat, e: Evidence): Evidence {
    if calls == 0 then e else Wrote(w, stage, c + calls - 1, e)
  }

  /** A later call of a stage overwrites all that an earlier one wrote. */
  lemma LaterCallOverwrites(w: World, stage: Stage, c: nat, calls: nat, e: Evidence)
    ensures Wrote(w, stage, c + calls, Left(w, stage, c, calls, e)) == Left(w, stage, c, calls + 1, e)
  {
  }

  /** One more call of the stage, after `calls` of them. */
  method CallAgain(w: World, stage: Stage, ghost o: Oracle, c: nat, calls: nat, before: Evidence, ghost had: Evidence)
    returns (ok: bool, status: Status, e: Evidence)
    requires Answers(o, w, stage) && before == Left(w, stage, c, calls, had)
    ensures ok <==> CallPasses(o, c + calls)
    ensures status == if ok then Running(stage) else StageFailed(stage)
    ensures e == Left(w, stage, c, calls + 1, had)
  {
    LaterCallOverwrites(w, stage, c, calls, had);
    ok, status, e := CallStage(w, stage, c + calls, before);
  }

  /** After a failure of class `f`: whether to call again, and the recipes applied before that. */
  method HandleFailure(f: FailureClass, attempt: nat, cap: int, recipes: seq<Text>, before: seq<Text>)
    returns (again: bool, applied: seq<Text>)
    ensures again <==> MayRetry(f, attempt + 1, cap)
    ensures applied == Applied(f, recipes, before)
  {
    again, applied := false, before;
    if Structural(f) {
      again := attempt + 1 < cap;
    } else if Transient(f) {
      again, applied := true, applied + recipes;
    }
  }

  /** The retry loop.  Status and evidence are left as by the last call, so that no failure of an
      earlier attempt outlives a later pass; without any call they are the ones before.  `o` answers
      as the stage does. */
  method RunStageWithRetry(w: World, stage: Stage, ghost o: Oracle, c: nat, limit: int, cap: int,
                           recipes: seq<Text>, before: Status, had: Evidence)
    returns (r: StageRun, status: Status, e: Evidence)
    requires Answers(o, w, stage)
    ensures RunOf(r, o, c, limit, cap, recipes)
    ensures status == if r.calls == 0 then before else if r.ok then Running(stage) else StageFailed(stage)
    ensures e == Left(w, stage, c, r.calls, had)
  {
    var analyses: seq<FailureClass>, applied: seq<Text> := [], [];
    status, e := before, had;
    var attempt := 0;
    while attempt < limit
      invariant attempt == |analyses| && Trying(o, c, limit, cap, recipes, analyses, applied)
      invariant status == if attempt == 0 then before else StageFailed(stage)
      invariant e == Left(w, stage, c, attempt, had)
    {
      var ok;
      ok, status, e := CallAgain(w, stage, o, c, attempt, e, had);
      if ok {
        PassedRun(o, c, limit, cap, recipes, analyses, applied);
        return StageRun(true, attempt + 1, analyses, applied), status, e;
      }
      var f := (w.classify)(c + attempt);
      ghost var sofar, remedied := analyses, applied;
      var again;
      again, applied := HandleFailure(f, attempt, cap, recipes, applied);
      analyses := analyses + [f];
      attempt := attempt + 1;
      OneMoreFailure(o, c, limit, cap, recipes, sofar, remedied, f, analyses, applied);
      if !again {
        return StageRun(false, attempt, analyses, applied), status, e;
      }
    }
    Exhausted(o, c, limit, cap, recipes, analyses, applied);
    r := StageRun(false, attempt, analyses, applied);
  }

  /** The last call of a run tells how it ended. */
  lemma LastCall(r: StageRun, o: Oracle, c: nat, limit: int, cap: int, recipes: seq<Text>)
    requires RunOf(r, o, c, limit, cap, recipes) && r.calls > 0
    ensures CallPasses(o, c + r.calls - 1) <==> r.ok
  {
    if !r.ok {
      assert FailedCall(o, c, r.calls - 1, r.analyses[r.calls - 1]);
    }
  }

  /** Where the retry loop stands: every call so far failed, was analysed and may be followed by another. */
  ghost predicate Trying(o: Oracle, c: nat, limit: int, cap: int, recipes: seq<Text>,
                         analyses: seq<FailureClass>, applied: seq<Text>) {
    && (analyses == [] || |analyses| <= limit)
    && FailedCalls(o, c, analyses) && AllRetried(analyses, |analyses|, cap)
    && applied == Remedies(analyses, recipes)
  }

  /** One more failed call: the loop goes on, or the run is over. */
  lemma OneMoreFailure(o: Oracle, c: nat, limit: int, cap: int, recipes: seq<Text>, analyses: seq<FailureClass>,
                       applied: seq<Text>, f: FailureClass, all: seq<FailureClass>, after: seq<Text>)
    requires Trying(o, c, limit, cap, recipes, analyses, applied) && |analyses| < limit
    requires FailedCall(o, c, |analyses|, f)
    requires all == analyses + [f] && after == Applied(f, recipes, applied)
    ensures |all| == |analyses| + 1
    ensures MayRetry(f, |all|, cap) ==> Trying(o, c, limit, cap, recipes, all, after)
    ensures !MayRetry(f, |all|, cap) ==> RunOf(StageRun(false, |all|, all, after), o, c, limit, cap, recipes)
  {
    assert all[..|analyses|] == analyses;
  }

  lemma PassedRun(o: Oracle, c: nat, limit: int, cap: int, recipes: seq<Text>,
                  analyses: seq<FailureClass>, applied: seq<Text>)
    requires Trying(o, c, limit, cap, recipes, analyses, applied) && |analyses| < limit
    requires CallPasses(o, c + |analyses|)
    ensures RunOf(StageRun(true, |analyses| + 1, analyses, applied), o, c, limit, cap, recipes)
  {
  }

  lemma Exhausted(o: Oracle, c: nat, limit: int, cap: int, recipes: seq<Text>,
                  analyses: seq<FailureClass>, applied: seq<Text>)
    requires Trying(o, c, limit, cap, recipes, analyses, applied) && |analyses| >= limit
    ensures RunOf(StageRun(false, |analyses|, analyses, applied), o, c, limit, cap, recipes)
  {
  }

  lemma NoLongerRun(a: StageRun, b: StageRun, o: Oracle, c: nat, limit: int, cap: int, recipes: seq<Text>)
    requires RunOf(a, o, c, limit, cap, recipes) && RunOf(b, o, c, limit, cap, recipes)
    ensures |b.analyses| <= |a.analyses|
  {
    var m, n := |a.analyses|, |b.analyses|;
    forall k: nat | c <= k < c + n
      ensures !CallPasses(o, k)
    {
      assert FailedCall(o, c, k - c, b.analyses[k - c]);
    }
    forall i | 0 <= i < n && i < m
      ensures a.analyses[i] == b.analyses[i]
    {
      assert FailedCall(o, c, i, b.analyses[i]) && FailedCall(o, c, i, a.analyses[i]);
    }
  }

  /** The contract leaves no freedom: the oracle determines the run. */
  lemma RunUnique(a: StageRun, b: StageRun, o: Oracle, c: nat, limit: int, cap: int, recipes: seq<Text>)
    requires RunOf(a, o, c, limit, cap, recipes) && RunOf(b, o, c, limit, cap, recipes)
    ensures a == b
  {
    NoLongerRun(a, b, o, c, limit, cap, recipes);
    NoLongerRun(b, a, o, c, limit, cap, recipes);
    var n := |a.analyses|;
    forall i | 0 <= i < n
      ensures a.analyses[i] == b.analyses[i]
    {
      assert FailedCall(o, c, i, a.analyses[i]) && FailedCall(o, c, i, b.analyses[i]);
    }
    assert a.analyses == b.analyses;
    forall k: nat | c <= k < c + n
      ensures !CallPasses(o, k)
    {
      assert FailedCall(o, c, k - c, b.analyses[k - c]);
    }
  }

  function Repeated(recipes: seq<Text>, times: nat): seq<Text> {
    if times == 0 then [] else Repeated(recipes, times - 1) + recipes
  }

  /** The recipes applied are all of them, in order, once for each transient failure. */
  lemma {:induction false} RecipesRepeat(analyses: seq<FailureClass>, recipes: seq<Text>)
    ensures Remedies(analyses, recipes) == Repeated(recipes, TransientCount(analyses))
  {
    if analyses != [] {
      RecipesRepeat(analyses[..|analyses| - 1], recipes);
    }
  }

  /** The call fails for a transient reason. */
  predicate FailsTransiently(o: Oracle, call: nat) {
    !CallPasses(o, call) && Transient((o.classify)(call))
  }

  ghost predicate AlwaysTransient(o: Oracle) {
    forall n: nat :: FailsTransiently(o, n)
  }

  /** A stage none of whose calls passes, all failing for transient reasons, is called as often as its
      limit says; no stage is called more often. */
  lemma CallsUpToLimit(r: StageRun, o: Oracle, c: nat, limit: int, cap: int, recipes: seq<Text>)
    requires RunOf(r, o, c, limit, cap, recipes)
    ensures r.calls <= if limit < 1 then 0 else limit
    ensures AlwaysTransient(o) ==> !r.ok && r.calls == if limit < 1 then 0 else limit
  {
    var fails := |r.analyses|;
    if AlwaysTransient(o) {
      assert FailsTransiently(o, c + fails);
      assert !r.ok;
      if fails > 0 {
        assert FailsTransiently(o, c + fails - 1);
        assert FailedCall(o, c, fails - 1, r.analyses[fails - 1]);
      }
    }
  }

  /** A stage whose limit is negative is never called, and fails without a failure. */
  lemma UncalledIff(r: StageRun, o: Oracle, c: nat, limit: int, cap: int, recipes: seq<Text>)
    requires RunOf(r, o, c, limit, cap, recipes)
    ensures limit < 1 <==> r == StageRun(false, 0, [], [])
  {
    if limit < 1 {
      assert r.analyses == [] && Remedies(r.analyses, recipes) == [];
    }
  }
}
