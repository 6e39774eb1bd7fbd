/** The mutation pipeline of hex-executor-console-backend/src/safekeep/pipeline.ts:
    preflight, PLAN, approval hash, copy-on-write BACKUP, COMMIT, rollback, audit.
 */
module Pipeline {
  import opened Common
  import opened Texts
  import opened Disks
  import opened Snapshots
  import opened CanonicalPlan
  import opened MovePlans
  import FileMove

  datatype Stage = NotReached | Passed | Skipped | Rejected

  datatype Commit = NotRun | Committed | CommitFailed | CommitThrew

  /** `threw` is an exception that escapes the pipeline. */
  datatype PipelineResult = PipelineResult(
    ok: bool,
    threw: bool,
    plan: Stage,
    approval: Stage,
    backup: Stage,
    commit: Commit,
    rollback: Option<RestoreResult>)

  /** Where the pipeline runs and for whom. */
  datatype Context = Context(
    ws: Path,
    action: Action,
    commandId: Text,
    policy: MovePolicy,
    preflightOk: bool,
    approvalPreviewHash: Option<Text>,
    ids: SnapshotIds,
    logName: Text)

  /** A file move between two different paths. */
  predicate RealMove(cmd: Command) {
    cmd.MoveFile? && cmd.args.source.Some? && cmd.args.destination.Some? && cmd.args.source != cmd.args.destination
  }

  /** The paths COMMIT may write. */
  function Footprint(cmd: Command): set<Path> {
    match cmd
    case MoveFile(args) =>
      (if args.source.Some? then {args.source.value} else {}) +
      (if args.destination.Some? then {args.destination.value} else {})
    case Workflow(_, footprint) => footprint
  }

  ghost predicate FootprintOutside(ws: Path, cmd: Command) {
    forall p :: p in Footprint(cmd) ==> !InSafekeep(ws, p)
  }

  /** Everything the gates in front of BACKUP demand. */
  ghost predicate GatesOpen(h: Text -> Text, norm: Text -> Text, ctx: Context, plan: PlanResult) {
    && ctx.preflightOk && plan.PlanOk?
    && (ctx.action.isMutating ==> HashMatches(h, norm, ctx, plan))
  }

  /** The previewed hash is that of the plan just made. */
  ghost predicate HashMatches(h: Text -> Text, norm: Text -> Text, ctx: Context, plan: PlanResult)
    requires plan.PlanOk?
  {
    && ctx.approvalPreviewHash == Some(ApprovalHash(h, norm, ctx.action, plan, ctx.ws))
    && Trim(ctx.approvalPreviewHash.value) != []
  }

  /** How far the gates let the pipeline come, as its result reports it. */
  ghost predicate GateStages(h: Text -> Text, norm: Text -> Text, ctx: Context, plan: PlanResult, planStage: Stage, approval: Stage) {
    && planStage == (if !ctx.preflightOk then NotReached else if plan.PlanFail? then Rejected else Passed)
    && approval == (if planStage != Passed || !ctx.action.isMutating then NotReached
                    else if HashMatches(h, norm, ctx, plan) then Passed else Rejected)
  }

  /** Planned paths are among those COMMIT writes. */
  lemma PlannedInFootprint(stat: Path -> Stat, cmd: Command, policy: MovePolicy)
    requires PlanFor(stat, cmd, policy).PlanOk?
    ensures forall p :: p in PlannedPaths(PlanFor(stat, cmd, policy).items) ==> p in Footprint(cmd)
  {
    match cmd
    case MoveFile(args) => AcceptedPlansStand(stat, args, policy);
    case Workflow(_, _) =>
  }

  lemma PlannedOutside(ws: Path, stat: Path -> Stat, cmd: Command, policy: MovePolicy)
    requires PlanFor(stat, cmd, policy).PlanOk? && FootprintOutside(ws, cmd)
    ensures OutsideSafekeep(ws, PlannedPaths(PlanFor(stat, cmd, policy).items))
  {
    PlannedInFootprint(stat, cmd, policy);
    var paths := PlannedPaths(PlanFor(stat, cmd, policy).items);
    forall i | 0 <= i < |paths|
      ensures !InSafekeep(ws, paths[i])
    {
      assert paths[i] in paths;
    }
  }

  /** A preview opens the approval gate exactly when the plan made at execution is the previewed
      one, up to the order of its paths and the bits its 32-bit counters drop. */
  lemma PreviewOpensGateIff(h: Text -> Text, norm: Text -> Text, ctx: Context, q: PlanResult, a: Action, p: PlanResult, ws: Path)
    requires Ideal(h) && ctx.preflightOk && ctx.action.isMutating && p.PlanOk?
    requires ctx.approvalPreviewHash == Some(ApprovalHash(h, norm, a, p, ws))
    ensures GatesOpen(h, norm, ctx, q) <==>
            q.PlanOk? && SameApproval(norm, a, PartsOf(p), PathText(ws), ctx.action, PartsOf(q), PathText(ctx.ws))
  {
    DigestsSurviveTrim(h, PlanText(BuildCanonicalPlan(norm, a, PartsOf(p), PathText(ws))));
    if q.PlanOk? {
      ApprovalHashBinds(h, norm, a, PartsOf(p), PathText(ws), ctx.action, PartsOf(q), PathText(ctx.ws));
    }
  }

  lemma DigestsSurviveTrim(h: Text -> Text, x: Text)
    requires Ideal(h)
    ensures Trim(h(x)) == h(x) != []
  {
    var d := h(x);
    assert HexDigit(d[0]) && HexDigit(d[|d| - 1]);
  }

  /** A command previewed while `stat` answered `parse` passes the gate as long as the two paths of
      a move still answer the same, whatever else has changed on the disk. */
  lemma UnchangedPathsKeepApproval(h: Text -> Text, norm: Text -> Text, ctx: Context, cmd: Command,
                                   parse: Path -> Stat, execute: Path -> Stat)
    requires Ideal(h) && ctx.preflightOk
    requires cmd.MoveFile? && cmd.args.source.Some? ==> parse(cmd.args.source.value) == execute(cmd.args.source.value)
    requires cmd.MoveFile? && cmd.args.destination.Some? ==> parse(cmd.args.destination.value) == execute(cmd.args.destination.value)
    ensures var previewed := PlanFor(parse, cmd, ctx.policy);
            previewed.PlanOk? && ctx.approvalPreviewHash == Some(ApprovalHash(h, norm, ctx.action, previewed, ctx.ws)) ==>
              GatesOpen(h, norm, ctx, PlanFor(execute, cmd, ctx.policy))
  {
    var p := PlanFor(parse, cmd, ctx.policy);
    assert PlanFor(execute, cmd, ctx.policy) == p;
    if ctx.action.isMutating && p.PlanOk? && ctx.approvalPreviewHash == Some(ApprovalHash(h, norm, ctx.action, p, ctx.ws)) {
      PreviewOpensGateIff(h, norm, ctx, p, ctx.action, p, ctx.ws);
    }
  }

  // ----- The stages -----

  /** What a closed gate leaves in the audit log: an entry for a refused plan or a wrong hash, none for a
      refused preflight or a hash not given. */
  function GateEntries(ctx: Context, planStage: Stage, approval: Stage): nat {
    if planStage == Rejected then 1
    else if approval == Rejected && ctx.approvalPreviewHash.Some? && Trim(ctx.approvalPreviewHash.value) != [] then 1
    else 0
  }

  /** Preflight, PLAN and approval.  Only audit entries are written. */
  method Gate(disk: Disk, h: Text -> Text, norm: Text -> Text, ctx: Context, cmd: Command)
    returns (open: bool, plan: PlanResult, planStage: Stage, approval: Stage, threw: bool)
    modifies disk
    ensures OnlyAudit(ctx.ws, old(disk.files), disk.files)
    ensures open ==> plan == PlanFor(old(disk.Stats()), cmd, ctx.policy)
    ensures open <==> GatesOpen(h, norm, ctx, PlanFor(old(disk.Stats()), cmd, ctx.policy))
    ensures disk.faults <= old(disk.faults)
    ensures open ==> disk.files == old(disk.files) && disk.faults == old(disk.faults) && planStage == Passed && !threw
    ensures GateStages(h, norm, ctx, PlanFor(old(disk.Stats()), cmd, ctx.policy), planStage, approval)
    ensures threw ==> disk.faults < old(disk.faults)
    ensures open ==> disk.audited == old(disk.audited)
    ensures !open && !threw ==> disk.audited == old(disk.audited) + GateEntries(ctx, planStage, approval)
  {
    open, plan, planStage, approval, threw := false, EMPTY_PLAN, NotReached, NotReached, false;
    if !ctx.preflightOk { return; }
    plan := MakePlan(disk, cmd, ctx.policy);
    if plan.PlanFail? {
      planStage := Rejected;
      var logged := AppendAudit(disk, ctx.ws, ctx.logName);
      threw := !logged;
      return;
    }
    planStage := Passed;
    if ctx.action.isMutating {
      var current := ApprovalHash(h, norm, ctx.action, plan, ctx.ws);
      if ctx.approvalPreviewHash.None? || Trim(ctx.approvalPreviewHash.value) == [] {
        approval := Rejected;
        return;
      }
      if ctx.approvalPreviewHash.value != current {
        approval := Rejected;
        var logged := AppendAudit(disk, ctx.ws, ctx.logName);
        threw := !logged;
        return;
      }
      approval := Passed;
    }
    open := true;
  }

  method RunWorkflow(disk: Disk, footprint: set<Path>) returns (c: Commit)
    modifies disk`files, disk`faults
    ensures AgreeOutside(old(disk.files), disk.files, footprint) && disk.faults == old(disk.faults)
    ensures c != NotRun
  {
    var written: Files := *;
    var outcome: int := *;
    ghost var before := disk.files;
    disk.files := (disk.files - footprint) + (map p | p in written && p in footprint :: written[p]);
    c := if outcome == 0 then Committed else if outcome == 1 then CommitFailed else CommitThrew;
    forall p | p !in footprint
      ensures AgreeAt(before, disk.files, p)
    {
    }
  }

  method RunCommit(disk: Disk, cmd: Command) returns (c: Commit)
    requires Collisionless(disk.sha)
    requires cmd.MoveFile? ==> cmd.args.source.Some? && cmd.args.destination.Some?
    modifies disk`files, disk`faults
    ensures c != NotRun
    ensures AgreeOutside(old(disk.files), disk.files, Footprint(cmd))
    ensures cmd.MoveFile? && cmd.args.source != cmd.args.destination && c == Committed ==>
              cmd.args.source.value in old(disk.files) &&
              disk.files == FileMove.Moved(old(disk.files), cmd.args.source.value, cmd.args.destination.value)
    ensures disk.faults <= old(disk.faults)
    ensures cmd.MoveFile? ==> !c.CommitThrew?
    ensures RealMove(cmd) && cmd.args.source.value in old(disk.files) && c != Committed ==>
              disk.faults + 2 <= old(disk.faults)
  {
    match cmd
    case MoveFile(args) =>
      var moved := FileMove.CommitFileMoveAtomic(disk, args.source.value, args.destination.value, args.overwrite);
      assert Footprint(cmd) == {args.source.value, args.destination.value};
      c := if moved then Committed else CommitFailed;
    case Workflow(_, footprint) =>
      c := RunWorkflow(disk, footprint);
  }

  // ----- States -----

  /** Every user path that existed holds its old bytes; the only new ones lie in `footprint`. */
  ghost predicate Reinstated(ws: Path, before: Files, after: Files, footprint: set<Path>) {
    forall p {:trigger p in after} {:trigger AgreeAt(before, after, p)} :: !InSafekeep(ws, p) ==>
      AgreeAt(before, after, p) || (p !in before && p in footprint)
  }

  ghost predicate OnlyFootprint(ws: Path, before: Files, after: Files, footprint: set<Path>) {
    forall p {:trigger p in after} {:trigger AgreeAt(before, after, p)} :: !InSafekeep(ws, p) && p !in footprint ==>
      AgreeAt(before, after, p)
  }

  /** The user's files are those of `state`. */
  ghost predicate UserFilesAre(ws: Path, after: Files, state: Files) {
    forall p {:trigger p in after} {:trigger AgreeAt(state, after, p)} :: !InSafekeep(ws, p) ==> AgreeAt(state, after, p)
  }

  /** Every existing file COMMIT may write is a planned one; for a file move this always holds. */
  ghost predicate PlanCovers(before: Files, footprint: set<Path>, paths: seq<Path>) {
    forall p :: p in footprint && p in before ==> p in paths
  }

  lemma StatedPlanCovers(files: Files, dirs: set<Path>, size: Content -> nat, mtime: Path -> int, args: MoveArgs, policy: MovePolicy)
    requires MovePlan(StatIn(files, dirs, size, mtime), args, policy).PlanOk?
    ensures PlanCovers(files, Footprint(MoveFile(args)), PlannedPaths(MovePlan(StatIn(files, dirs, size, mtime), args, policy).items))
  {
    var stat := StatIn(files, dirs, size, mtime);
    AcceptedPlansStand(stat, args, policy);
    var src, dest := args.source.value, args.destination.value;
    var paths := PlannedPaths(MovePlan(stat, args, policy).items);
    assert paths[0] == src;
    assert dest in files ==> stat(dest).File? && paths[1] == dest;
  }

  lemma OriginalsAreFirst(m: Manifest)
    ensures forall p :: p in Originals(m) <==> p in FirstOriginals(m, |m.items|)
  {
    forall p
      ensures p in Originals(m) <==> p in FirstOriginals(m, |m.items|)
    {
      if p in Originals(m) {
        var i :| 0 <= i < |m.items| && Originals(m)[i] == p;
        assert m.items[i].originalPath == p;
      }
      if p in FirstOriginals(m, |m.items|) {
        var i :| 0 <= i < |m.items| && m.items[i].originalPath == p;
        assert Originals(m)[i] == p;
      }
    }
  }

  /** What one restore of the pipeline's own snapshot does to the user's files. */
  lemma RollbackReinstates(ws: Path, before: Files, backed: Files, committed: Files, after: Files,
                           sha: Content -> Text, m: Manifest, footprint: set<Path>)
    requires Collisionless(sha) && RecordsState(before, sha, m)
    requires OutsideSafekeep(ws, Originals(m)) && PlanCovers(before, footprint, Originals(m))
    requires OnlySafekeep(ws, before, backed) && AgreeOutside(backed, committed, footprint)
    requires RestoreReport(ws, committed, after, sha, m, Originals(m))
    ensures Reinstated(ws, before, after, footprint)
  {
    RestoreReinstates(ws, before, committed, after, sha, m);
    var n := |m.items|;
    OriginalsAreFirst(m);
    forall p | !InSafekeep(ws, p)
      ensures AgreeAt(before, after, p) || (p !in before && p in footprint)
    {
      AreasApart(ws, p);
      if p in FirstOriginals(m, n) {
        var i :| 0 <= i < n && m.items[i].originalPath == p;
      } else {
        assert AgreeAt(committed, after, p) && AgreeAt(before, backed, p);
        assert p !in footprint ==> AgreeAt(backed, committed, p);
      }
    }
  }

  lemma ReachedAreOriginals(m: Manifest, k: nat)
    requires k <= |m.items|
    ensures forall p :: p in FirstOriginals(m, k) ==> p in Originals(m)
  {
    forall p | p in FirstOriginals(m, k)
      ensures p in Originals(m)
    {
      var i :| 0 <= i < k && m.items[i].originalPath == p;
      assert Originals(m)[i] == p;
    }
  }

  /** Even a restore that stops early writes planned paths only. */
  lemma RollbackStaysInside(ws: Path, before: Files, backed: Files, committed: Files, after: Files,
                            sha: Content -> Text, m: Manifest, restored: seq<Path>, footprint: set<Path>)
    requires OnlySafekeep(ws, before, backed) && AgreeOutside(backed, committed, footprint)
    requires forall p :: p in Originals(m) ==> p in footprint
    requires RestoreReport(ws, committed, after, sha, m, restored)
    ensures OnlyFootprint(ws, before, after, footprint)
  {
    forall p | !InSafekeep(ws, p) && p !in footprint
      ensures AgreeAt(before, after, p)
    {
      AreasApart(ws, p);
      ReachedAreOriginals(m, Reach(m, |restored|));
      assert AgreeAt(committed, after, p) && AgreeAt(before, backed, p) && AgreeAt(backed, committed, p);
    }
  }

  // ----- The pipeline -----

  /** The manifest is that of this command's snapshot of the planned files. */
  ghost predicate SnapshotOf(ctx: Context, items: seq<PlanItem>, m: Manifest) {
    && Originals(m) == PlannedPaths(items)
    && Describes(m, ctx.ids, ctx.commandId, ctx.action.intent, ctx.action.mutationKind)
  }

  /** The snapshot of the planned files can be restored. */
  ghost predicate SnapshotThere(files: Files, sha: Content -> Text, h: Text -> Text, ctx: Context, items: seq<PlanItem>) {
    exists m :: Restorable(files, sha, h, ctx.ws, m) && SnapshotOf(ctx, items, m)
  }

  /** BACKUP: skipped when no file is planned. */
  method Backup(disk: Disk, h: Text -> Text, ctx: Context, items: seq<PlanItem>)
    returns (stage: Stage, point: Option<Manifest>, threw: bool)
    modifies disk
    ensures OnlySafekeep(ctx.ws, old(disk.files), disk.files)
    ensures stage == Skipped <==> items == []
    ensures stage == Skipped ==> point == None && disk.files == old(disk.files)
    ensures stage == Passed <==> point.Some?
    ensures stage != NotReached
    ensures point.Some? ==> SnapshotOf(ctx, items, point.value)
    ensures point.Some? && FreshId(old(disk.files), ctx.ws, ctx.ids.restorePointId) && OutsideSafekeep(ctx.ws, PlannedPaths(items)) ==>
      Restorable(disk.files, disk.sha, h, ctx.ws, point.value)
    ensures disk.faults <= old(disk.faults)
    ensures point.Some? && (disk.faithful || disk.faults == old(disk.faults)) && OutsideSafekeep(ctx.ws, PlannedPaths(items)) ==>
      RecordsState(old(disk.files), disk.sha, point.value)
    ensures (stage == Rejected && Copyable(old(disk.files), ctx.ws, items)) || threw ==> disk.faults < old(disk.faults)
    ensures stage != Rejected ==> disk.audited == old(disk.audited)
    ensures stage == Rejected && !threw ==> disk.audited == old(disk.audited) + 1
  {
    threw := false;
    point := None;
    if items == [] {
      stage := Skipped;
      return;
    }
    var b := RunBackupCow(disk, h, ctx.ws, ctx.ids, ctx.commandId, ctx.action.intent, ctx.action.mutationKind, items);
    match b
    case BackupOk(m) =>
      if (disk.faithful || disk.faults == old(disk.faults)) && OutsideSafekeep(ctx.ws, PlannedPaths(items)) {
        FaithfulBackupRecords(old(disk.files), disk.files, disk.sha, m);
      }
      if FreshId(old(disk.files), ctx.ws, ctx.ids.restorePointId) && OutsideSafekeep(ctx.ws, PlannedPaths(items)) {
        BackupRestorable(disk.files, disk.sha, h, ctx.ws, ctx.ids, items, m);
      }
      stage, point := Passed, Some(m);
    case BackupFailed =>
      stage := Rejected;
      ghost var was := disk.files;
      var logged := AppendAudit(disk, ctx.ws, ctx.logName);
      AuditIsSafekeep(ctx.ws, old(disk.files), was, disk.files);
      threw := !logged;
    case BackupThrew =>
      stage, threw := Rejected, true;
  }

  lemma AuditIsSafekeep(ws: Path, a: Files, b: Files, c: Files)
    requires OnlySafekeep(ws, a, b) && OnlyAudit(ws, b, c)
    ensures OnlySafekeep(ws, a, c)
  {
    forall p | !InSafekeep(ws, p)
      ensures AgreeAt(a, c, p)
    {
      AreasApart(ws, p);
      assert AgreeAt(a, b, p) && AgreeAt(b, c, p);
    }
  }

  /** Audit entries at the end leave the user's files alone. */
  lemma AuditKeepsUserFiles(ws: Path, before: Files, a: Files, b: Files, footprint: set<Path>, state: Files)
    requires OnlyAudit(ws, a, b)
    ensures Reinstated(ws, before, a, footprint) ==> Reinstated(ws, before, b, footprint)
    ensures OnlyFootprint(ws, before, a, footprint) ==> OnlyFootprint(ws, before, b, footprint)
    ensures UserFilesAre(ws, a, state) ==> UserFilesAre(ws, b, state)
  {
    forall p | !InSafekeep(ws, p)
      ensures AgreeAt(a, b, p)
    {
      AreasApart(ws, p);
    }
  }

  /** The command keeps out of the safekeep area and the snapshot, if there is one, can be restored. */
  ghost predicate Undisturbed(ctx: Context, cmd: Command, files: Files, sha: Content -> Text, h: Text -> Text, point: Option<Manifest>) {
    FootprintOutside(ctx.ws, cmd) && (point.Some? ==> Restorable(files, sha, h, ctx.ws, point.value))
  }

  /** A commit that keeps out of the safekeep area leaves its snapshot restorable. */
  lemma CommitKeepsSnapshot(ctx: Context, cmd: Command, backed: Files, committed: Files, sha: Content -> Text, h: Text -> Text, m: Manifest)
    requires Undisturbed(ctx, cmd, backed, sha, h, Some(m)) && AgreeOutside(backed, committed, Footprint(cmd))
    ensures Restorable(committed, sha, h, ctx.ws, m) && RestorableId(committed, sha, h, ctx.ws, m.restorePointId)
  {
    forall p | InSafekeep(ctx.ws, p) && !InAudit(ctx.ws, p)
      ensures AgreeAt(backed, committed, p)
    {
    }
    StaysRestorable(ctx.ws, backed, committed, sha, h, m);
  }

  /** COMMIT, and on failure the restore from the snapshot just taken. */
  method CommitOrRollback(disk: Disk, h: Text -> Text, ctx: Context, cmd: Command, point: Option<Manifest>, ghost before: Files)
    returns (c: Commit, rollback: Option<RestoreResult>)
    requires Collisionless(disk.sha)
    requires cmd.MoveFile? ==> cmd.args.source.Some? && cmd.args.destination.Some?
    requires OnlySafekeep(ctx.ws, before, disk.files)
    requires point.Some? ==> forall p :: p in Originals(point.value) ==> p in Footprint(cmd)
    modifies disk
    ensures c != NotRun
    ensures rollback.Some? <==> c != Committed && point.Some?
    ensures Undisturbed(ctx, cmd, old(disk.files), disk.sha, h, point) ==> OnlyFootprint(ctx.ws, before, disk.files, Footprint(cmd))
    ensures c == Committed && cmd.MoveFile? && cmd.args.source != cmd.args.destination && FootprintOutside(ctx.ws, cmd) ==>
      cmd.args.source.value in before &&
      UserFilesAre(ctx.ws, disk.files, FileMove.Moved(before, cmd.args.source.value, cmd.args.destination.value))
    ensures Undisturbed(ctx, cmd, old(disk.files), disk.sha, h, point) && rollback.Some? && rollback.value.ok &&
            RecordsState(before, disk.sha, point.value) && PlanCovers(before, Footprint(cmd), Originals(point.value)) ==>
      Reinstated(ctx.ws, before, disk.files, Footprint(cmd))
    ensures disk.faults <= old(disk.faults)
    ensures cmd.MoveFile? ==> !c.CommitThrew?
    ensures rollback.Some? && !rollback.value.ok && Undisturbed(ctx, cmd, old(disk.files), disk.sha, h, point) ==>
      disk.faults < old(disk.faults)
    ensures Escapes(rollback) ==> disk.faults < old(disk.faults)
    ensures disk.audited >= old(disk.audited) && (Entries(rollback).Some? ==> disk.audited == old(disk.audited) + Entries(rollback).value)
    ensures Undisturbed(ctx, cmd, old(disk.files), disk.sha, h, point) && point.Some? ==>
      Restorable(disk.files, disk.sha, h, ctx.ws, point.value)
    ensures RealMove(cmd) && cmd.args.source.value in old(disk.files) && c != Committed ==>
      disk.faults + 2 <= old(disk.faults)
    ensures RealMove(cmd) && cmd.args.source.value in old(disk.files) && rollback.Some? && !rollback.value.ok &&
            Undisturbed(ctx, cmd, old(disk.files), disk.sha, h, point) ==>
      disk.faults + 3 <= old(disk.faults)
  {
    ghost var backed := disk.files;
    c := RunCommit(disk, cmd);
    ghost var committed := disk.files;
    rollback := None;
    CommitStaysInside(ctx.ws, before, backed, committed, Footprint(cmd));
    if c == Committed && cmd.MoveFile? && cmd.args.source != cmd.args.destination && FootprintOutside(ctx.ws, cmd) {
      MovedForUser(ctx.ws, before, backed, cmd.args.source.value, cmd.args.destination.value);
    }
    if Undisturbed(ctx, cmd, backed, disk.sha, h, point) && point.Some? {
      CommitKeepsSnapshot(ctx, cmd, backed, committed, disk.sha, h, point.value);
    }
    if c != Committed && point.Some? {
      var r := RestoreByRestorePointId(disk, h, ctx.ws, point.value.restorePointId, ctx.logName);
      rollback := Some(r);
      RollbackEffect(ctx, cmd, before, backed, committed, disk.files, disk.sha, h, point.value, r);
      if Undisturbed(ctx, cmd, backed, disk.sha, h, point) {
        RollbackKeepsSnapshot(ctx, cmd, backed, committed, disk.files, disk.sha, h, point.value, r);
      }
    }
  }

  /** The effect of the pipeline's restore on the user's files. */
  lemma RollbackEffect(ctx: Context, cmd: Command, before: Files, backed: Files, committed: Files, after: Files,
                       sha: Content -> Text, h: Text -> Text, m: Manifest, r: RestoreResult)
    requires Collisionless(sha)
    requires OnlySafekeep(ctx.ws, before, backed) && AgreeOutside(backed, committed, Footprint(cmd))
    requires forall p :: p in Originals(m) ==> p in Footprint(cmd)
    requires Undisturbed(ctx, cmd, backed, sha, h, Some(m)) ==> OnlyFootprint(ctx.ws, before, committed, Footprint(cmd))
    requires r.manifest.None? ==> !r.ok && OnlyAudit(ctx.ws, committed, after)
    requires r.manifest.Some? ==>
      && (exists p :: Candidate(committed, ctx.ws, m.restorePointId, p) && committed[p].manifest == r.manifest.value)
      && RestoreReport(ctx.ws, committed, after, sha, r.manifest.value, r.restored)
    requires r.ok ==> r.manifest.Some? && r.restored == Originals(r.manifest.value)
    ensures Undisturbed(ctx, cmd, backed, sha, h, Some(m)) ==> OnlyFootprint(ctx.ws, before, after, Footprint(cmd))
    ensures Undisturbed(ctx, cmd, backed, sha, h, Some(m)) && r.ok && RecordsState(before, sha, m) &&
            PlanCovers(before, Footprint(cmd), Originals(m)) ==>
      Reinstated(ctx.ws, before, after, Footprint(cmd))
  {
    if Undisturbed(ctx, cmd, backed, sha, h, Some(m)) {
      RestoredOwnSnapshot(ctx.ws, backed, committed, m, Footprint(cmd));
      if r.manifest.Some? {
        RollbackStaysInside(ctx.ws, before, backed, committed, after, sha, m, r.restored, Footprint(cmd));
        if r.ok && RecordsState(before, sha, m) && PlanCovers(before, Footprint(cmd), Originals(m)) {
          OutsideByFootprint(ctx.ws, cmd, Originals(m));
          RollbackReinstates(ctx.ws, before, backed, committed, after, sha, m, Footprint(cmd));
        }
      } else {
        AuditKeepsUserFiles(ctx.ws, before, committed, after, Footprint(cmd), before);
      }
    }
  }

  /** The restore writes originals and audit entries, so its snapshot can be restored again. */
  lemma RollbackKeepsSnapshot(ctx: Context, cmd: Command, backed: Files, committed: Files, after: Files,
                              sha: Content -> Text, h: Text -> Text, m: Manifest, r: RestoreResult)
    requires Undisturbed(ctx, cmd, backed, sha, h, Some(m)) && AgreeOutside(backed, committed, Footprint(cmd))
    requires Restorable(committed, sha, h, ctx.ws, m)
    requires forall p :: p in Originals(m) ==> p in Footprint(cmd)
    requires r.manifest.None? ==> OnlyAudit(ctx.ws, committed, after)
    requires r.manifest.Some? ==>
      && (exists p :: Candidate(committed, ctx.ws, m.restorePointId, p) && committed[p].manifest == r.manifest.value)
      && RestoreReport(ctx.ws, committed, after, sha, r.manifest.value, r.restored)
    ensures Restorable(after, sha, h, ctx.ws, m)
  {
    RestoredOwnSnapshot(ctx.ws, backed, committed, m, Footprint(cmd));
    forall p | InSafekeep(ctx.ws, p) && !InAudit(ctx.ws, p)
      ensures AgreeAt(committed, after, p)
    {
      if r.manifest.Some? {
        ReachedAreOriginals(m, Reach(m, |r.restored|));
      }
    }
    StaysRestorable(ctx.ws, committed, after, sha, h, m);
  }

  lemma OutsideByFootprint(ws: Path, cmd: Command, paths: seq<Path>)
    requires FootprintOutside(ws, cmd) && forall p :: p in paths ==> p in Footprint(cmd)
    ensures OutsideSafekeep(ws, paths)
  {
    forall i | 0 <= i < |paths|
      ensures !InSafekeep(ws, paths[i])
    {
      assert paths[i] in paths;
    }
  }

  lemma CommitStaysInside(ws: Path, before: Files, backed: Files, committed: Files, footprint: set<Path>)
    requires OnlySafekeep(ws, before, backed) && AgreeOutside(backed, committed, footprint)
    ensures OnlyFootprint(ws, before, committed, footprint)
  {
    forall p | !InSafekeep(ws, p) && p !in footprint
      ensures AgreeAt(before, committed, p)
    {
      assert AgreeAt(before, backed, p) && AgreeAt(backed, committed, p);
    }
  }

  lemma MovedForUser(ws: Path, before: Files, backed: Files, src: Path, dest: Path)
    requires OnlySafekeep(ws, before, backed) && !InSafekeep(ws, src) && src in backed
    ensures src in before && UserFilesAre(ws, FileMove.Moved(backed, src, dest), FileMove.Moved(before, src, dest))
  {
    assert AgreeAt(before, backed, src);
    forall p | !InSafekeep(ws, p)
      ensures AgreeAt(FileMove.Moved(before, src, dest), FileMove.Moved(backed, src, dest), p)
    {
      assert AgreeAt(before, backed, p);
    }
  }

  /** After a commit outside the safekeep area, the only manifest with the id is still our own. */
  lemma RestoredOwnSnapshot(ws: Path, backed: Files, committed: Files, m: Manifest, footprint: set<Path>)
    requires OnlyManifest(backed, ws, m) && AgreeOutside(backed, committed, footprint)
    requires forall p :: p in footprint ==> !InSafekeep(ws, p)
    ensures forall p :: Candidate(committed, ws, m.restorePointId, p) ==> committed[p].manifest == m
  {
    forall p | Candidate(committed, ws, m.restorePointId, p)
      ensures committed[p].manifest == m
    {
      ManifestInSafekeep(ws, p);
      assert AgreeAt(backed, committed, p);
    }
  }

  /** The setting in which the pipeline promises to keep the user's files: the command does not
      reach into the safekeep area, and the new restore point id is fresh. */
  ghost predicate SafeSetting(ctx: Context, cmd: Command, files: Files) {
    FootprintOutside(ctx.ws, cmd) && FreshId(files, ctx.ws, ctx.ids.restorePointId)
  }

  /** What becomes of the user's files.  A committed move is a move and nothing else; nothing
      outside the commit's footprint ever changes; and `undone` says that a failed commit leaves
      every file that existed as it was, but for a newly created path of the footprint. */
  ghost predicate UserFilesKept(ctx: Context, cmd: Command, before: Files, after: Files, c: Commit, undone: bool) {
    && (c == Committed && RealMove(cmd) && FootprintOutside(ctx.ws, cmd) ==>
          cmd.args.source.value in before &&
          UserFilesAre(ctx.ws, after, FileMove.Moved(before, cmd.args.source.value, cmd.args.destination.value)))
    && (SafeSetting(ctx, cmd, before) ==> OnlyFootprint(ctx.ws, before, after, Footprint(cmd)))
    && (SafeSetting(ctx, cmd, before) && cmd.MoveFile? && c == CommitFailed && undone ==>
          Reinstated(ctx.ws, before, after, Footprint(cmd)))
  }

  lemma AuditKeepsUserFilesKept(ctx: Context, cmd: Command, before: Files, a: Files, b: Files, c: Commit, undone: bool)
    requires UserFilesKept(ctx, cmd, before, a, c, undone) && OnlyAudit(ctx.ws, a, b)
    ensures UserFilesKept(ctx, cmd, before, b, c, undone)
  {
    if c == Committed && RealMove(cmd) && cmd.args.source.value in before {
      AuditKeepsUserFiles(ctx.ws, before, a, b, Footprint(cmd),
                          FileMove.Moved(before, cmd.args.source.value, cmd.args.destination.value));
    } else {
      AuditKeepsUserFiles(ctx.ws, before, a, b, Footprint(cmd), before);
    }
  }

  lemma AuditKeepsSnapshot(ctx: Context, a: Files, b: Files, sha: Content -> Text, h: Text -> Text, items: seq<PlanItem>)
    requires OnlyAudit(ctx.ws, a, b)
    ensures SnapshotThere(a, sha, h, ctx, items) ==> SnapshotThere(b, sha, h, ctx, items)
  {
    if m :| Restorable(a, sha, h, ctx.ws, m) && SnapshotOf(ctx, items, m) {
      StaysRestorable(ctx.ws, a, b, sha, h, m);
    }
  }

  /** Too few faults for a file move to harm the user's files: at most two, or none for a move of a
      path onto itself, which fails without any. */
  predicate FewFaults(cmd: Command, faults: nat) {
    (RealMove(cmd) && faults <= 2) || (cmd.MoveFile? && faults == 0)
  }

  /** The restore ended in an exception, which the pipeline does not catch. */
  predicate Escapes(rollback: Option<RestoreResult>) {
    rollback.Some? && rollback.value.refusal.Some? && (rollback.value.refusal.value.AuditThrew? || rollback.value.refusal.value.BackupUnreadable?)
  }

  /** How many audit entries a rollback makes, where that is certain. */
  function Entries(rollback: Option<RestoreResult>): Option<nat> {
    if rollback.None? then Some(0)
    else if Audits(rollback.value.refusal) then Some(2)
    else None
  }

  predicate RestoredOk(rollback: Option<RestoreResult>) {
    rollback.Some? && rollback.value.ok
  }

  /** The last audit entry leaves the user's files and the snapshot alone. */
  method LogOutcome(disk: Disk, ghost h: Text -> Text, ctx: Context, ghost cmd: Command, ghost items: seq<PlanItem>,
                    ghost before: Files, ghost c: Commit, ghost undone: bool)
    returns (logged: bool)
    requires UserFilesKept(ctx, cmd, before, disk.files, c, undone)
    modifies disk
    ensures UserFilesKept(ctx, cmd, before, disk.files, c, undone)
    ensures old(SnapshotThere(disk.files, disk.sha, h, ctx, items)) ==> SnapshotThere(disk.files, disk.sha, h, ctx, items)
    ensures disk.faults <= old(disk.faults) && (!logged ==> disk.faults < old(disk.faults))
    ensures disk.audited >= old(disk.audited) && (logged ==> disk.audited == old(disk.audited) + 1)
  {
    ghost var was := disk.files;
    logged := AppendAudit(disk, ctx.ws, ctx.logName);
    AuditKeepsSnapshot(ctx, was, disk.files, disk.sha, h, items);
    AuditKeepsUserFilesKept(ctx, cmd, before, was, disk.files, c, undone);
  }

  /** What an accepted plan says about the command it is for. */
  ghost predicate PlanSuits(ctx: Context, cmd: Command, files: Files, items: seq<PlanItem>) {
    var paths := PlannedPaths(items);
    && (cmd.MoveFile? ==> cmd.args.source.Some? && cmd.args.destination.Some?)
    && (forall p :: p in paths ==> p in Footprint(cmd))
    && (FootprintOutside(ctx.ws, cmd) ==> OutsideSafekeep(ctx.ws, paths))
    && (cmd.MoveFile? ==> PlanCovers(files, Footprint(cmd), paths))
    && (cmd.MoveFile? ==> items != [] && cmd.args.source.value in files)
    && (cmd.MoveFile? ==> forall i :: 0 <= i < |items| ==> items[i].originalPath in files)
  }

  /** Behind the gates: BACKUP, then COMMIT and, if that fails, rollback, then the last audit entry. */
  method BackupAndCommit(disk: Disk, h: Text -> Text, ctx: Context, cmd: Command, items: seq<PlanItem>)
    returns (backup: Stage, c: Commit, rollback: Option<RestoreResult>, threw: bool)
    requires Collisionless(disk.sha)
    requires PlanSuits(ctx, cmd, disk.files, items)
    modifies disk
    ensures c == NotRun ==> OnlySafekeep(ctx.ws, old(disk.files), disk.files)
    ensures c == NotRun <==> backup == Rejected
    ensures c != NotRun ==> backup == if items == [] then Skipped else Passed
    ensures backup != NotReached
    ensures SafeSetting(ctx, cmd, old(disk.files)) && backup == Passed ==> SnapshotThere(disk.files, disk.sha, h, ctx, items)
    ensures rollback.Some? <==> (c.CommitFailed? || c.CommitThrew?) && backup == Passed
    ensures UserFilesKept(ctx, cmd, old(disk.files), disk.files, c,
                          (RestoredOk(rollback) && disk.faithful) || FewFaults(cmd, old(disk.faults)))
    ensures disk.faults <= old(disk.faults) && (threw ==> disk.faults < old(disk.faults)) && (Escapes(rollback) ==> threw)
    ensures c == NotRun && !threw ==> disk.audited == old(disk.audited) + 1
    ensures c != NotRun && !threw ==>
      && disk.audited > old(disk.audited)
      && (Entries(rollback).Some? ==> disk.audited == old(disk.audited) + Entries(rollback).value + 1)
    ensures cmd.MoveFile? ==> !c.CommitThrew?
    ensures SafeSetting(ctx, cmd, old(disk.files)) && cmd.MoveFile? && c == NotRun ==> disk.faults < old(disk.faults)
    ensures SafeSetting(ctx, cmd, old(disk.files)) && RealMove(cmd) && c == CommitFailed ==> disk.faults + 2 <= old(disk.faults)
  {
    var point;
    backup, point, threw := Backup(disk, h, ctx, items);
    if backup == Rejected {
      return backup, NotRun, None, threw;
    }
    ghost var backed := disk.files;
    assert RealMove(cmd) && FootprintOutside(ctx.ws, cmd) ==> AgreeAt(old(disk.files), backed, cmd.args.source.value);
    c, rollback := CommitOrRollback(disk, h, ctx, cmd, point, old(disk.files));
    threw := Escapes(rollback);
    if !threw {
      var logged := LogOutcome(disk, h, ctx, cmd, items, old(disk.files), c,
                               (RestoredOk(rollback) && disk.faithful) || FewFaults(cmd, old(disk.faults)));
      threw := !logged;
    }
  }

  /** The pipeline.  COMMIT runs exactly behind every gate and a complete backup; before it only the
      safekeep area is written.  The user's files are kept whenever the restore reports success on a
      disk with faithful copies.  For a move between two paths they are kept in any case unless
      three faults come together: the commit fails only by two, and then the restore needs a third. */
  method RunMutationPipeline(disk: Disk, h: Text -> Text, norm: Text -> Text, ctx: Context, cmd: Command)
    returns (r: PipelineResult)
    requires Collisionless(disk.sha)
    modifies disk
    ensures r.backup != NotReached <==> GatesOpen(h, norm, ctx, PlanFor(old(disk.Stats()), cmd, ctx.policy))
    ensures r.commit == NotRun ==> !r.ok && OnlySafekeep(ctx.ws, old(disk.files), disk.files)
    ensures r.commit == NotRun <==> r.backup == NotReached || r.backup == Rejected
    ensures r.backup == Skipped || r.backup == Passed ==>
      (r.backup == Skipped <==> PlanFor(old(disk.Stats()), cmd, ctx.policy).items == [])
    ensures GateStages(h, norm, ctx, PlanFor(old(disk.Stats()), cmd, ctx.policy), r.plan, r.approval)
    ensures SafeSetting(ctx, cmd, old(disk.files)) && r.backup == Passed ==>
      SnapshotThere(disk.files, disk.sha, h, ctx, PlanFor(old(disk.Stats()), cmd, ctx.policy).items)
    ensures r.ok <==> r.commit == Committed && !r.threw
    ensures (r.threw ==> disk.faults < old(disk.faults)) && (Escapes(r.rollback) ==> r.threw)
    ensures !r.threw && r.backup == NotReached ==> disk.audited == old(disk.audited) + GateEntries(ctx, r.plan, r.approval)
    ensures !r.threw && r.backup == Rejected ==> disk.audited == old(disk.audited) + 1
    ensures !r.threw && r.commit != NotRun ==>
      && disk.audited > old(disk.audited)
      && (Entries(r.rollback).Some? ==> disk.audited == old(disk.audited) + Entries(r.rollback).value + 1)
    ensures r.rollback.Some? <==> (r.commit.CommitFailed? || r.commit.CommitThrew?) && r.backup == Passed
    ensures UserFilesKept(ctx, cmd, old(disk.files), disk.files, r.commit,
                          (RestoredOk(r.rollback) && disk.faithful) || FewFaults(cmd, old(disk.faults)))
    ensures cmd.MoveFile? ==> !r.commit.CommitThrew?
    ensures SafeSetting(ctx, cmd, old(disk.files)) && RealMove(cmd) && !r.ok && r.backup != NotReached ==>
      disk.faults < old(disk.faults)
  {
    ghost var before := disk.files;
    var open, plan, planStage, approval, threw := Gate(disk, h, norm, ctx, cmd);
    if !open {
      AuditIsSafekeep(ctx.ws, before, before, disk.files);
      AuditKeepsUserFiles(ctx.ws, before, before, disk.files, Footprint(cmd), before);
      return PipelineResult(false, threw, planStage, approval, NotReached, NotRun, None);
    }
    PlanFacts(disk.files, disk.dirs, disk.size, disk.mtime, ctx, cmd);
    var backup, c, rollback, escaped := BackupAndCommit(disk, h, ctx, cmd, plan.items);
    return PipelineResult(c == Committed && !escaped, escaped, planStage, approval, backup, c, rollback);
  }

  lemma PlanFacts(files: Files, dirs: set<Path>, size: Content -> nat, mtime: Path -> int, ctx: Context, cmd: Command)
    requires PlanFor(StatIn(files, dirs, size, mtime), cmd, ctx.policy).PlanOk?
    ensures PlanSuits(ctx, cmd, files, PlanFor(StatIn(files, dirs, size, mtime), cmd, ctx.policy).items)
  {
    var stat := StatIn(files, dirs, size, mtime);
    PlannedInFootprint(stat, cmd, ctx.policy);
    if FootprintOutside(ctx.ws, cmd) {
      PlannedOutside(ctx.ws, stat, cmd, ctx.policy);
    }
    if cmd.MoveFile? {
      AcceptedPlansStand(stat, cmd.args, ctx.policy);
      StatedPlanCovers(files, dirs, size, mtime, cmd.args, ctx.policy);
    }
  }
}
