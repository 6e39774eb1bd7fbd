/** The whole run of agent/local_executor.py: the stages in order, the evidence validator of
    agent/local_validator.py, the quality gate of agent/local_gatekeeper.py, and what a success and
    an approval tell about the stages.
 */
module StageVerdict {
  import opened Common
  import opened Texts
  import opened StageEngine

  // ----- The validator and the gate -----

  datatype Issue =
    | NoTaskReport
    | NoEnvironmentSnapshot
    | BuildNotSuccessful
    | TestNotPassed
    | PaparazziNotRun
    | PaparazziDiff
    | TooFewScreenshots
    | NoDeviceContext
    | NoRuntimeProfile

  predicate FailedAt(status: Status, stages: set<Stage>) {
    status.StageFailed? && status.stage in stages
  }

  predicate PaparazziDemanded(s: Setup) {
    s.gate.paparazziVerifyRequired && s.platform.Android? && s.paparazziEnabled
  }

  /** The validator counts screenshots only if the payload asks for capturing outright. */
  predicate ScreenshotsCounted(s: Setup) {
    s.gate.minScreenshots.Some? && s.capture == Some(true)
  }

  /** When the validator raises an issue; a stage that failed early waives what comes after it. */
  predicate Raises(s: Setup, e: Evidence, status: Status, issue: Issue) {
    match issue
    case NoTaskReport => !e.files.taskReport
    case NoEnvironmentSnapshot => !e.files.environmentSnapshot
    case BuildNotSuccessful => s.gate.buildSuccessRequired && !e.buildSuccess && !FailedAt(status, {Source, Env})
    case TestNotPassed => s.gate.testPassRequired && !e.testSuccess && !FailedAt(status, {Source, Env, Build})
    case PaparazziNotRun => PaparazziDemanded(s) && !e.paparazzi.ran
    case PaparazziDiff => PaparazziDemanded(s) && e.paparazzi.diffFound && s.gate.paparazziDiffFailsGate
    case TooFewScreenshots => ScreenshotsCounted(s) && e.runtime.screenshots < s.gate.minScreenshots.value
    case NoDeviceContext => !e.files.deviceContext && !FailedAt(status, {Source, Env})
    case NoRuntimeProfile => !e.files.runtimeProfile && !FailedAt(status, {Source, Env})
  }

  /** The part of the validator an issue comes from. */
  function PartOf(issue: Issue): nat {
    match issue
    case PaparazziNotRun => 1
    case PaparazziDiff => 1
    case TooFewScreenshots => 1
    case NoDeviceContext => 2
    case NoRuntimeProfile => 2
    case _ => 0
  }

  method ReportIssues(s: Setup, e: Evidence, status: Status) returns (issues: seq<Issue>)
    ensures forall issue :: issue in issues <==> PartOf(issue) == 0 && Raises(s, e, status, issue)
  {
    issues := [];
    if !e.files.taskReport { issues := issues + [NoTaskReport]; }
    if !e.files.environmentSnapshot { issues := issues + [NoEnvironmentSnapshot]; }
    if s.gate.buildSuccessRequired && !e.buildSuccess {
      if !FailedAt(status, {Source, Env}) { issues := issues + [BuildNotSuccessful]; }
    }
    if s.gate.testPassRequired && !e.testSuccess {
      if !FailedAt(status, {Source, Env, Build}) { issues := issues + [TestNotPassed]; }
    }
  }

  method CaptureIssues(s: Setup, e: Evidence, status: Status) returns (issues: seq<Issue>)
    ensures forall issue :: issue in issues <==> PartOf(issue) == 1 && Raises(s, e, status, issue)
  {
    issues := [];
    if s.gate.paparazziVerifyRequired && s.platform.Android? && s.paparazziEnabled {
      if !e.paparazzi.ran { issues := issues + [PaparazziNotRun]; }
      if e.paparazzi.diffFound && s.gate.paparazziDiffFailsGate { issues := issues + [PaparazziDiff]; }
    }
    if s.gate.minScreenshots.Some? && s.capture == Some(true) {
      if e.runtime.screenshots < s.gate.minScreenshots.value { issues := issues + [TooFewScreenshots]; }
    }
  }

  method ContextIssues(s: Setup, e: Evidence, status: Status) returns (issues: seq<Issue>)
    ensures forall issue :: issue in issues <==> PartOf(issue) == 2 && Raises(s, e, status, issue)
  {
    issues := [];
    if !FailedAt(status, {Source, Env}) {
      if !e.files.deviceContext { issues := issues + [NoDeviceContext]; }
      if !e.files.runtimeProfile { issues := issues + [NoRuntimeProfile]; }
    }
  }

  /** The evidence validator: exactly the issues raised. */
  method ValidateExecutorRun(s: Setup, e: Evidence, status: Status) returns (issues: seq<Issue>)
    ensures forall issue :: issue in issues <==> Raises(s, e, status, issue)
  {
    var report := ReportIssues(s, e, status);
    var capture := CaptureIssues(s, e, status);
    var context := ContextIssues(s, e, status);
    issues := report + capture + context;
    assert forall issue :: issue in issues <==> issue in report || issue in capture || issue in context;
  }

  datatype GateReason = ValidationNotPassed | PipelineStatus | SmokeFailed | IosChecksFailed

  /** The quality gate. */
  method EvaluateGate(s: Setup, e: Evidence, validationPass: bool, status: Status) returns (approved: bool, reasons: seq<GateReason>)
    ensures ValidationNotPassed in reasons <==> !validationPass
    ensures PipelineStatus in reasons <==> status != Succeeded
    ensures SmokeFailed in reasons <==> s.gate.runtimeSmokeRequired && !e.runtime.success
    ensures IosChecksFailed in reasons <==> s.platform.Ios? && e.iosChecksFailed
    ensures approved <==> reasons == []
    ensures approved <==> && validationPass && status == Succeeded
                          && (s.gate.runtimeSmokeRequired ==> e.runtime.success)
                          && !(s.platform.Ios? && e.iosChecksFailed)
  {
    approved, reasons := true, [];
    if !validationPass {
      approved, reasons := false, reasons + [ValidationNotPassed];
    }
    if status != Succeeded {
      approved, reasons := false, reasons + [PipelineStatus];
    }
    if s.gate.runtimeSmokeRequired && !e.runtime.success {
      approved, reasons := false, reasons + [SmokeFailed];
    }
    if s.platform.Ios? && e.iosChecksFailed {
      approved, reasons := false, reasons + [IosChecksFailed];
    }
  }

  /** All the evidence the policy asks for, none of it waived. */
  predicate Evidenced(s: Setup, e: Evidence) {
    var q := s.gate;
    && e.files == Files(true, true, true, true)
    && (q.buildSuccessRequired ==> e.buildSuccess)
    && (q.testPassRequired ==> e.testSuccess)
    && (q.paparazziVerifyRequired && s.platform.Android? && s.paparazziEnabled ==>
          e.paparazzi.ran && !(e.paparazzi.diffFound && q.paparazziDiffFailsGate))
    && (q.minScreenshots.Some? && s.capture == Some(true) ==> e.runtime.screenshots >= q.minScreenshots.value)
    && (q.runtimeSmokeRequired ==> e.runtime.success)
    && !(s.platform.Ios? && e.iosChecksFailed)
  }

  /** After a success the validator waives nothing. */
  lemma NoIssueMeansEvidence(s: Setup, e: Evidence)
    ensures (forall issue :: !Raises(s, e, Succeeded, issue)) &&
            (s.gate.runtimeSmokeRequired ==> e.runtime.success) && !(s.platform.Ios? && e.iosChecksFailed) <==>
            Evidenced(s, e)
  {
    if forall issue :: !Raises(s, e, Succeeded, issue) {
      assert !Raises(s, e, Succeeded, NoTaskReport) && !Raises(s, e, Succeeded, NoEnvironmentSnapshot);
      assert !Raises(s, e, Succeeded, BuildNotSuccessful) && !Raises(s, e, Succeeded, TestNotPassed);
      assert !Raises(s, e, Succeeded, PaparazziNotRun) && !Raises(s, e, Succeeded, PaparazziDiff);
      assert !Raises(s, e, Succeeded, TooFewScreenshots);
      assert !Raises(s, e, Succeeded, NoDeviceContext) && !Raises(s, e, Succeeded, NoRuntimeProfile);
    }
  }

  /** What a run that failed at a stage is not blamed for: the evidence that only later stages leave. */
  predicate Waived(stage: Stage, issue: Issue) {
    match stage
    case Source => issue in {BuildNotSuccessful, TestNotPassed, NoDeviceContext, NoRuntimeProfile}
    case Env => issue in {BuildNotSuccessful, TestNotPassed, NoDeviceContext, NoRuntimeProfile}
    case Build => issue == TestNotPassed
    case _ => false
  }

  lemma WaivedIff(s: Setup, e: Evidence, stage: Stage, issue: Issue)
    ensures Raises(s, e, StageFailed(stage), issue) <==> Raises(s, e, Succeeded, issue) && !Waived(stage, issue)
    ensures Raises(s, e, Running(stage), issue) <==> Raises(s, e, Succeeded, issue)
  {
  }

  // ----- The report of a run -----

  datatype RetryPolicy = RetryPolicy(
    maxBuild: Option<int>,
    maxTest: Option<int>,
    maxScreenshot: Option<int>,
    maxRuntime: Option<int>,
    structuralMax: Option<int>,
    recipesOnFail: seq<Text>)

  /** The limits of the retried stages, in order: build, test, screenshot, runtime. */
  function LimitOf(p: RetryPolicy, i: nat): int
    requires i < 4
  {
    if i == 0 then Limit(p.maxBuild, 2)
    else if i == 1 then Limit(p.maxTest, 2)
    else if i == 2 then Limit(p.maxScreenshot, 1)
    else Limit(p.maxRuntime, 2)
  }

  function RecipesOf(p: RetryPolicy, i: nat): seq<Text> {
    if i == 2 then [Lit("gradle_clean_rebuild")] else p.recipesOnFail
  }

  /** The retried stages, in order. */
  function RetriedStage(i: nat): Stage {
    if i == 0 then Build else if i == 1 then Test else if i == 2 then Screenshot else Runtime
  }

  datatype Report = Report(status: Status, runs: seq<StageRun>, evidence: Evidence, approved: bool, evidenceComplete: bool)

  function CallsBefore(runs: seq<StageRun>, i: nat): nat
    requires i <= |runs|
  {
    if i == 0 then 0 else CallsBefore(runs, i - 1) + runs[i - 1].calls
  }

  /** Run `i` of the retried stages is what the retry loop makes of it. */
  ghost predicate RunAt(w: World, p: RetryPolicy, runs: seq<StageRun>, i: nat)
    requires i < |runs| <= 4
  {
    RunOf(runs[i], OracleOf(w, RetriedStage(i)), CallsBefore(runs, i), LimitOf(p, i), Limit(p.structuralMax, 1), RecipesOf(p, i))
  }

  /** The retried stages ran in order, each as its contract says, each but the last passed. */
  ghost predicate InOrder(w: World, p: RetryPolicy, runs: seq<StageRun>) {
    && |runs| <= 4
    && (forall i :: 0 <= i < |runs| ==> RunAt(w, p, runs, i))
    && (forall i :: 0 <= i < |runs| - 1 ==> runs[i].ok)
  }

  /** The stages that are called once all passed; the iOS checks are made for iOS only. */
  predicate EarlyOk(w: World) {
    w.sourceOk && w.envOk && (w.setup.platform.Ios? ==> w.iosChecksOk)
  }

  /** Status and evidence after the stages that are called once. */
  function BegunStatus(w: World): Status {
    if !w.sourceOk then StageFailed(Source)
    else if !w.envOk then StageFailed(Env)
    else if !EarlyOk(w) then StageFailed(Build)
    else Running(Env)
  }

  function BegunEvidence(w: World): Evidence {
    var merged := w.sourceOk && w.envOk;
    Evidence(Files(w.leftover.taskReport,
                   w.sourceOk || w.leftover.environmentSnapshot,
                   merged || w.leftover.deviceContext,
                   merged || w.leftover.runtimeProfile),
             false, false, Paparazzi(false, false), Smoke(false, 0), merged && !EarlyOk(w))
  }

  /** The final report is written before it is validated. */
  function Reported(e: Evidence): Evidence {
    e.(files := e.files.(taskReport := true))
  }

  /** Status and evidence after the first `i` retried stages. */
  function StatusAfter(w: World, runs: seq<StageRun>, i: nat): Status
    requires i <= |runs|
  {
    if i == 0 then BegunStatus(w)
    else if runs[i - 1].calls == 0 then StatusAfter(w, runs, i - 1)
    else if runs[i - 1].ok then Running(RetriedStage(i - 1))
    else StageFailed(RetriedStage(i - 1))
  }

  function EvidenceAfter(w: World, runs: seq<StageRun>, i: nat): Evidence
    requires i <= |runs|
  {
    if i == 0 then BegunEvidence(w)
    else Left(w, RetriedStage(i - 1), CallsBefore(runs, i - 1), runs[i - 1].calls, EvidenceAfter(w, runs, i - 1))
  }

  /** What is reported: every status that is not a failure has become success. */
  function Final(status: Status): Status {
    if status.StageFailed? then status else Succeeded
  }

  /** The report that belongs to the stage runs. */
  function ReportOf(w: World, runs: seq<StageRun>): Report {
    var final := Final(StatusAfter(w, runs, |runs|));
    var e := Reported(EvidenceAfter(w, runs, |runs|));
    var approved := final == Succeeded && Evidenced(w.setup, e);
    Report(final, runs, e, approved, approved)
  }

  /** All that a run can come to. */
  ghost predicate Outcome(w: World, p: RetryPolicy, r: Report) {
    && InOrder(w, p, r.runs) && r == ReportOf(w, r.runs)
    && (EarlyOk(w) <==> r.runs != [])
    && (r.runs != [] && |r.runs| < 4 ==> !r.runs[|r.runs| - 1].ok)
  }

  // ----- The run -----

  lemma {:induction false} CallsBeforeStable(runs: seq<StageRun>, r: StageRun, i: nat)
    requires i <= |runs|
    ensures CallsBefore(runs + [r], i) == CallsBefore(runs, i)
  {
    if i > 0 {
      CallsBeforeStable(runs, r, i - 1);
    }
  }

  lemma {:induction false} AfterStable(w: World, runs: seq<StageRun>, r: StageRun, i: nat)
    requires i <= |runs|
    ensures StatusAfter(w, runs + [r], i) == StatusAfter(w, runs, i)
    ensures EvidenceAfter(w, runs + [r], i) == EvidenceAfter(w, runs, i)
  {
    if i > 0 {
      AfterStable(w, runs, r, i - 1);
      CallsBeforeStable(runs, r, i - 1);
    }
  }

  lemma OneMoreRun(w: World, p: RetryPolicy, runs: seq<StageRun>, r: StageRun)
    requires |runs| < 4 && InOrder(w, p, runs) && (runs != [] ==> runs[|runs| - 1].ok)
    requires var i := |runs|;
             RunOf(r, OracleOf(w, RetriedStage(i)), CallsBefore(runs, i), LimitOf(p, i), Limit(p.structuralMax, 1), RecipesOf(p, i))
    ensures InOrder(w, p, runs + [r])
  {
    var all := runs + [r];
    forall j | 0 <= j < |all|
      ensures RunAt(w, p, all, j)
    {
      CallsBeforeStable(runs, r, j);
      assert j < |runs| ==> RunAt(w, p, runs, j);
    }
  }

  /** The next retried stage, run after the ones so far have passed. */
  method NextStage(w: World, p: RetryPolicy, runs: seq<StageRun>, before: Status, had: Evidence)
    returns (all: seq<StageRun>, ok: bool, status: Status, e: Evidence)
    requires |runs| < 4 && InOrder(w, p, runs) && (runs != [] ==> runs[|runs| - 1].ok)
    requires before == StatusAfter(w, runs, |runs|) && had == EvidenceAfter(w, runs, |runs|)
    ensures |all| == |runs| + 1 && InOrder(w, p, all) && ok == all[|runs|].ok
    ensures status == StatusAfter(w, all, |all|) && e == EvidenceAfter(w, all, |all|)
  {
    var i := |runs|;
    var r;
    var stage, c := RetriedStage(i), CallsBefore(runs, i);
    r, status, e := RunStageWithRetry(w, stage, OracleOf(w, stage), c, LimitOf(p, i), Limit(p.structuralMax, 1),
                                      RecipesOf(p, i), before, had);
    all := runs + [r];
    ok := r.ok;
    OneMoreRun(w, p, runs, r);
    AfterStable(w, runs, r, i);
    CallsBeforeStable(runs, r, i);
  }

  /** The stages that are called once: source, environment, device merge, iOS checks. */
  method EarlyStages(w: World) returns (ok: bool, status: Status, e: Evidence)
    ensures ok <==> EarlyOk(w)
    ensures status == BegunStatus(w) && e == BegunEvidence(w)
  {
    status := Running(Source);
    e := Evidence(w.leftover, false, false, Paparazzi(false, false), Smoke(false, 0), false);
    if !w.sourceOk {
      return false, StageFailed(Source), e;
    }
    status := Running(Env);
    e := e.(files := e.files.(environmentSnapshot := true));
    if !w.envOk {
      return false, StageFailed(Env), e;
    }
    e := e.(files := e.files.(deviceContext := true, runtimeProfile := true));
    if w.setup.platform.Ios? {
      e := e.(iosChecksFailed := !w.iosChecksOk);
      if !w.iosChecksOk {
        return false, StageFailed(Build), e;
      }
    }
    ok := true;
  }

  /** Reporting turns every status that is not a failure into success; then validation and gate.
      Approval means success with every demanded piece of evidence: no waiver reaches the gate. */
  method Finish(w: World, status: Status, had: Evidence, runs: seq<StageRun>) returns (r: Report)
    ensures r.runs == runs && r.status == Final(status) && r.evidence == Reported(had)
    ensures r.evidenceComplete <==> r.approved
    ensures r.approved <==> r.status == Succeeded && Evidenced(w.setup, r.evidence)
  {
    var final := if status.StageFailed? then status else Succeeded;
    var e := had.(files := had.files.(taskReport := true));
    var issues := ValidateExecutorRun(w.setup, e, final);
    var validationPass := issues == [];
    assert validationPass <==> forall issue :: !Raises(w.setup, e, final, issue) by {
      assert issues != [] ==> issues[0] in issues;
    }
    if final == Succeeded {
      NoIssueMeansEvidence(w.setup, e);
    }
    var approved, _ := EvaluateGate(w.setup, e, validationPass, final);
    r := Report(final, runs, e, approved, validationPass && approved);
  }

  method RunLocalExecutor(w: World, p: RetryPolicy) returns (r: Report)
    ensures Outcome(w, p, r)
  {
    var runs: seq<StageRun> := [];
    var ok, status, e := EarlyStages(w);
    if ok {
      runs, ok, status, e := NextStage(w, p, [], status, e);
      if ok {
        runs, ok, status, e := NextStage(w, p, runs, status, e);
      }
      if ok {
        runs, ok, status, e := NextStage(w, p, runs, status, e);
      }
      if ok {
        runs, ok, status, e := NextStage(w, p, runs, status, e);
      }
    }
    r := Finish(w, status, e, runs);
  }

  // ----- What the evidence tells about the stages -----

  /** What the first `i` retried stages leave in the report, read off their runs. */
  ghost predicate Tells(w: World, runs: seq<StageRun>, i: nat, e: Evidence)
    requires i <= |runs|
  {
    && e.files == Files(w.leftover.taskReport, true, true, true) && !e.iosChecksFailed
    && (e.buildSuccess <==> i > 0 && runs[0].ok)
    && (e.testSuccess <==> i > 1 && runs[1].ok)
    && e.paparazzi == (if i > 2 && runs[2].calls > 0 then Compared(w, LastOf(runs, 2)) else Paparazzi(false, false))
    && e.runtime == (if i > 3 && runs[3].calls > 0 then Smoke(runs[3].ok, if runs[3].ok then Taken(w, LastOf(runs, 3)) else 0)
                     else Smoke(false, 0))
  }

  /** The number of the last call of run `i`. */
  function LastOf(runs: seq<StageRun>, i: nat): nat
    requires i < |runs| && runs[i].calls > 0
  {
    CallsBefore(runs, i) + runs[i].calls - 1
  }

  function Compared(w: World, call: nat): Paparazzi {
    if w.setup.platform.Android? && w.setup.paparazziEnabled && !w.setup.dryRun then Paparazzi(true, w.diff(call))
    else Paparazzi(false, false)
  }

  /** The screenshots taken by a runtime call that passes. */
  function Taken(w: World, call: nat): nat {
    if w.setup.platform.Android? && w.setup.capture != Some(false) && w.captured(call) then 1 else 0
  }

  /** A passed run was called; a run that was called passed exactly if its last call did. */
  lemma RunTells(w: World, p: RetryPolicy, runs: seq<StageRun>, i: nat)
    requires InOrder(w, p, runs) && i < |runs|
    ensures runs[i].ok ==> runs[i].calls > 0
    ensures runs[i].calls > 0 ==> (runs[i].ok <==> Passes(w, RetriedStage(i), LastOf(runs, i)))
    ensures LimitOf(p, i) < 1 <==> runs[i] == StageRun(false, 0, [], [])
    ensures runs[i].calls == 0 ==> LimitOf(p, i) < 1
  {
    assert RunAt(w, p, runs, i);
    var o, c := OracleOf(w, RetriedStage(i)), CallsBefore(runs, i);
    UncalledIff(runs[i], o, c, LimitOf(p, i), Limit(p.structuralMax, 1), RecipesOf(p, i));
    if runs[i].calls > 0 {
      LastCall(runs[i], o, c, LimitOf(p, i), Limit(p.structuralMax, 1), RecipesOf(p, i));
    }
  }

  /** No evidence outlives the run that left it, and none is missing: every field tells how its stage ended. */
  lemma {:induction false} EvidenceTells(w: World, p: RetryPolicy, runs: seq<StageRun>, i: nat)
    requires InOrder(w, p, runs) && EarlyOk(w) && i <= |runs|
    ensures Tells(w, runs, i, EvidenceAfter(w, runs, i))
  {
    if i > 0 {
      EvidenceTells(w, p, runs, i - 1);
      RunTells(w, p, runs, i - 1);
    }
  }

  predicate AllPassed(runs: seq<StageRun>) {
    |runs| == 4 && forall i :: 0 <= i < 4 ==> runs[i].ok
  }

  /** The last stage begun was never called. */
  predicate StoppedUncalled(runs: seq<StageRun>) {
    runs != [] && runs[|runs| - 1] == StageRun(false, 0, [], [])
  }

  /** Success is reported when all stages passed, and when the last one begun was never called. */
  lemma SuccessIff(w: World, p: RetryPolicy, r: Report)
    requires Outcome(w, p, r)
    ensures r.status == Succeeded <==> AllPassed(r.runs) || StoppedUncalled(r.runs)
    ensures r.status.StageFailed? && r.runs != [] ==> r.status.stage == RetriedStage(|r.runs| - 1)
  {
    var n := |r.runs|;
    if n > 0 {
      RunTells(w, p, r.runs, n - 1);
      if n == 1 {
        assert StatusAfter(w, r.runs, n - 1) == Running(Env);
      } else {
        RunTells(w, p, r.runs, n - 2);
        assert StatusAfter(w, r.runs, n - 1) == Running(RetriedStage(n - 2));
      }
    }
  }

  /** A run whose first stages did not all pass: it failed at the first that did not (the iOS checks
      counting as the build), with the files written until then and no approval. */
  lemma EarlyEnd(w: World, p: RetryPolicy, r: Report)
    requires Outcome(w, p, r) && r.runs == []
    ensures r.status == StageFailed(if !w.sourceOk then Source else if !w.envOk then Env else Build) && !r.approved
    ensures !(w.sourceOk && w.envOk && (w.setup.platform.Ios? ==> w.iosChecksOk))
    ensures r.evidence.files == Files(true, w.sourceOk || w.leftover.environmentSnapshot,
                                      (w.sourceOk && w.envOk) || w.leftover.deviceContext,
                                      (w.sourceOk && w.envOk) || w.leftover.runtimeProfile)
    ensures r.evidence.iosChecksFailed <==> w.sourceOk && w.envOk
    ensures !r.evidence.buildSuccess && !r.evidence.testSuccess && !r.evidence.runtime.success && !r.evidence.paparazzi.ran
  {
  }

  /** A limit of the policy as it works out: absent and zero mean the default, a negative one no call. */
  function CallsAllowed(given: Option<int>, default: nat): nat {
    match given
    case None => default
    case Some(n) => if n == 0 then default else if n < 0 then 0 else n
  }

  /** Run `i` is one of that stage; it keeps to the limit, reaches it if every call fails for a
      transient reason, and applied exactly these recipes. */
  ghost predicate KeepsTo(w: World, runs: seq<StageRun>, i: nat, stage: Stage, allowed: nat, recipes: seq<Text>)
    requires i < |runs|
  {
    && runs[i].calls <= allowed
    && (AlwaysTransient(OracleOf(w, stage)) ==> !runs[i].ok && runs[i].calls == allowed)
    && runs[i].applied == Repeated(recipes, TransientCount(runs[i].analyses))
  }

  lemma RunKeepsTo(w: World, p: RetryPolicy, runs: seq<StageRun>, i: nat)
    requires InOrder(w, p, runs) && i < |runs|
    ensures KeepsTo(w, runs, i, RetriedStage(i), if LimitOf(p, i) < 1 then 0 else LimitOf(p, i), RecipesOf(p, i))
  {
    assert RunAt(w, p, runs, i);
    CallsUpToLimit(runs[i], OracleOf(w, RetriedStage(i)), CallsBefore(runs, i), LimitOf(p, i),
                   Limit(p.structuralMax, 1), RecipesOf(p, i));
    RecipesRepeat(runs[i].analyses, RecipesOf(p, i));
  }

  /** Which stage comes when, which entry of the policy limits it, and which recipes are applied for it. */
  lemma RunsByPolicy(w: World, p: RetryPolicy, r: Report)
    requires Outcome(w, p, r)
    ensures |r.runs| > 0 ==> KeepsTo(w, r.runs, 0, Build, CallsAllowed(p.maxBuild, 2), p.recipesOnFail)
    ensures |r.runs| > 1 ==> KeepsTo(w, r.runs, 1, Test, CallsAllowed(p.maxTest, 2), p.recipesOnFail)
    ensures |r.runs| > 2 ==> KeepsTo(w, r.runs, 2, Screenshot, CallsAllowed(p.maxScreenshot, 1), [Lit("gradle_clean_rebuild")])
    ensures |r.runs| > 3 ==> KeepsTo(w, r.runs, 3, Runtime, CallsAllowed(p.maxRuntime, 2), p.recipesOnFail)
  {
    if |r.runs| > 0 { RunKeepsTo(w, p, r.runs, 0); }
    if |r.runs| > 1 { RunKeepsTo(w, p, r.runs, 1); }
    if |r.runs| > 2 { RunKeepsTo(w, p, r.runs, 2); }
    if |r.runs| > 3 { RunKeepsTo(w, p, r.runs, 3); }
  }

  // ----- When success and approval mean that all stages passed -----

  /** Stage `k` is the first that is never called. */
  predicate FirstUncalled(p: RetryPolicy, k: nat) {
    k < 4 && LimitOf(p, k) < 1 && forall i :: 0 <= i < k ==> LimitOf(p, i) >= 1
  }

  /** Where every call passes and nothing differs. */
  function Smooth(s: Setup): (w: World)
    ensures EarlyOk(w)
  {
    World(s, Files(false, false, false, false), true, true, true,
          (call: nat) => true, (call: nat) => false, (call: nat) => true, (call: nat) => EnvTransient)
  }

  /** `k` stages pass at their first call; the next one, if there is one, is never called. */
  function SmoothRuns(k: nat): (runs: seq<StageRun>)
    requires k <= 4
    ensures |runs| == if k < 4 then k + 1 else 4
    ensures forall i :: 0 <= i < k ==> runs[i] == StageRun(true, 1, [], [])
    ensures k < 4 ==> runs[k] == StageRun(false, 0, [], [])
  {
    seq(k, i => StageRun(true, 1, [], [])) + (if k < 4 then [StageRun(false, 0, [], [])] else [])
  }

  lemma SmoothOutcome(s: Setup, p: RetryPolicy, k: nat)
    requires FirstUncalled(p, k) || (k == 4 && forall i :: 0 <= i < 4 ==> LimitOf(p, i) >= 1)
    ensures Outcome(Smooth(s), p, ReportOf(Smooth(s), SmoothRuns(k)))
    ensures ReportOf(Smooth(s), SmoothRuns(k)).status == Succeeded
  {
    var w, runs := Smooth(s), SmoothRuns(k);
    forall i | 0 <= i < |runs|
      ensures RunAt(w, p, runs, i)
    {
      assert LimitOf(p, i) >= 1 <==> i < k;
    }
    SuccessIff(w, p, ReportOf(w, runs));
  }

  /** A stage that stopped uncalled is the first whose limit is below one. */
  lemma StoppedAtFirstUncalled(w: World, p: RetryPolicy, r: Report)
    requires Outcome(w, p, r) && StoppedUncalled(r.runs)
    ensures FirstUncalled(p, |r.runs| - 1)
  {
    forall i | 0 <= i < |r.runs|
      ensures LimitOf(p, i) < 1 <==> i == |r.runs| - 1
    {
      RunTells(w, p, r.runs, i);
    }
  }

  ghost predicate SuccessMeansPassed(s: Setup, p: RetryPolicy) {
    forall w: World, r: Report :: w.setup == s && Outcome(w, p, r) && r.status == Succeeded ==> AllPassed(r.runs)
  }

  /** SUCCEEDED means that every stage passed exactly under the policies that allow every stage a call. */
  lemma SuccessMeansPassedIff(s: Setup, p: RetryPolicy)
    ensures SuccessMeansPassed(s, p) <==> forall i :: 0 <= i < 4 ==> LimitOf(p, i) >= 1
  {
    if k: nat :| FirstUncalled(p, k) {
      SmoothOutcome(s, p, k);
      assert !AllPassed(SmoothRuns(k));
    } else {
      AllAllowed(p);
      forall w: World, r: Report | w.setup == s && Outcome(w, p, r) && r.status == Succeeded
        ensures AllPassed(r.runs)
      {
        SuccessIff(w, p, r);
        if StoppedUncalled(r.runs) {
          StoppedAtFirstUncalled(w, p, r);
        }
      }
    }
  }

  lemma AllAllowed(p: RetryPolicy)
    requires forall k: nat :: !FirstUncalled(p, k)
    ensures forall i :: 0 <= i < 4 ==> LimitOf(p, i) >= 1
  {
    assert !FirstUncalled(p, 0) && !FirstUncalled(p, 1) && !FirstUncalled(p, 2) && !FirstUncalled(p, 3);
  }

  /** Nothing that the gate asks for is left by stage `k` or a later one alone. */
  predicate GateBlindFrom(s: Setup, k: nat) {
    && (k == 0 ==> !s.gate.buildSuccessRequired)
    && (k <= 1 ==> !s.gate.testPassRequired)
    && (PaparazziDemanded(s) ==> k == 3 && !s.dryRun)
    && (ScreenshotsCounted(s) ==> s.gate.minScreenshots.value <= 0)
    && !s.gate.runtimeSmokeRequired
  }

  /** The evidence of a run that stopped at an uncalled stage is all the gate asks for only if the
      gate is blind from there on; and then it can be. */
  lemma UncalledApproved(w: World, p: RetryPolicy, r: Report)
    requires Outcome(w, p, r) && StoppedUncalled(r.runs)
    ensures r.approved ==> GateBlindFrom(w.setup, |r.runs| - 1)
    ensures GateBlindFrom(w.setup, |r.runs| - 1) && (forall call: nat :: !w.diff(call)) ==> r.approved
  {
    var k := |r.runs| - 1;
    SuccessIff(w, p, r);
    EvidenceTells(w, p, r.runs, k + 1);
    assert forall i :: 0 <= i < k ==> r.runs[i].ok;
    assert !r.runs[k].ok && r.runs[k].calls == 0;
    if k == 3 {
      RunTells(w, p, r.runs, 2);
    }
  }

  ghost predicate ApprovalMeansPassed(s: Setup, p: RetryPolicy) {
    forall w: World, r: Report :: w.setup == s && Outcome(w, p, r) && r.approved ==> AllPassed(r.runs)
  }

  /** APPROVED means that every stage passed unless the first stage that is never called is one the
      gate is blind to. */
  lemma ApprovalMeansPassedIff(s: Setup, p: RetryPolicy)
    ensures ApprovalMeansPassed(s, p) <==> forall k: nat :: FirstUncalled(p, k) ==> !GateBlindFrom(s, k)
  {
    if k: nat :| FirstUncalled(p, k) && GateBlindFrom(s, k) {
      var w, runs := Smooth(s), SmoothRuns(k);
      SmoothOutcome(s, p, k);
      UncalledApproved(w, p, ReportOf(w, runs));
      assert !AllPassed(runs);
    } else {
      forall w: World, r: Report | w.setup == s && Outcome(w, p, r) && r.approved
        ensures AllPassed(r.runs)
      {
        SuccessIff(w, p, r);
        if StoppedUncalled(r.runs) {
          StoppedAtFirstUncalled(w, p, r);
          UncalledApproved(w, p, r);
        }
      }
    }
  }

  /** After all stages passed, build, test and smoke cannot be held against the run: approval hangs on
      the screenshots alone. */
  lemma PassedApprovedIff(w: World, p: RetryPolicy, r: Report)
    requires Outcome(w, p, r) && AllPassed(r.runs)
    ensures r.runs[2].calls > 0 && r.runs[3].calls > 0
    ensures r.evidence.buildSuccess && r.evidence.testSuccess && r.evidence.runtime.success
    ensures var s := w.setup;
            r.approved <==>
            && (PaparazziDemanded(s) ==>
                  !s.dryRun && !(s.recording && w.diff(LastOf(r.runs, 2)) && s.gate.paparazziDiffFailsGate))
            && (ScreenshotsCounted(s) ==> Taken(w, LastOf(r.runs, 3)) >= s.gate.minScreenshots.value)
  {
    SuccessIff(w, p, r);
    EvidenceTells(w, p, r.runs, 4);
    RunTells(w, p, r.runs, 2);
    RunTells(w, p, r.runs, 3);
  }

  /** Whether any run of the setup under the policy can be approved. */
  ghost predicate Approvable(s: Setup, p: RetryPolicy) {
    exists w: World, r: Report :: w.setup == s && Outcome(w, p, r) && r.approved
  }

  /** What the gate demands of screenshots can be met: no comparison in a dry run, at most one
      screenshot on a device, none elsewhere. */
  predicate Attainable(s: Setup) {
    && (PaparazziDemanded(s) ==> !s.dryRun)
    && (ScreenshotsCounted(s) ==> s.gate.minScreenshots.value <= if s.platform.Android? then 1 else 0)
  }

  /** Some run can be approved exactly if the gate is blind from the first stage that is never called,
      or, when every stage is called, if its demands on screenshots are attainable. */
  lemma ApprovableIff(s: Setup, p: RetryPolicy)
    ensures Approvable(s, p) <==> if exists k: nat :: FirstUncalled(p, k)
                                  then forall k: nat :: FirstUncalled(p, k) ==> GateBlindFrom(s, k)
                                  else Attainable(s)
  {
    if k: nat :| FirstUncalled(p, k) {
      SmoothOutcome(s, p, k);
      UncalledApproved(Smooth(s), p, ReportOf(Smooth(s), SmoothRuns(k)));
      forall v: World, r: Report | v.setup == s && Outcome(v, p, r) && r.approved
        ensures GateBlindFrom(s, k)
      {
        ApprovedUncalled(v, p, r, k);
      }
    } else {
      AllAllowed(p);
      SmoothOutcome(s, p, 4);
      PassedApprovedIff(Smooth(s), p, ReportOf(Smooth(s), SmoothRuns(4)));
      SuccessMeansPassedIff(s, p);
      forall v: World, r: Report | v.setup == s && Outcome(v, p, r) && r.approved
        ensures Attainable(s)
      {
        PassedApprovedIff(v, p, r);
      }
    }
  }

  lemma ApprovedUncalled(w: World, p: RetryPolicy, r: Report, k: nat)
    requires Outcome(w, p, r) && r.approved && FirstUncalled(p, k)
    ensures GateBlindFrom(w.setup, k)
  {
    SuccessIff(w, p, r);
    if AllPassed(r.runs) {
      RunTells(w, p, r.runs, k);
    } else {
      StoppedAtFirstUncalled(w, p, r);
      UncalledApproved(w, p, r);
    }
  }
}
