/** The plan of a file move and its approval: hex-executor-console-backend/src/safekeep/plan.ts,
    the policy checks of policy.ts, and the parse-time side in planPreview.ts.
 */
module MovePlans {
  import opened Common
  import opened Texts
  import opened Disks
  import opened Snapshots
  import opened CanonicalPlan

  /** What the command parser extracted; a missing or empty path is `None`. */
  datatype MoveArgs = MoveArgs(source: Option<Path>, destination: Option<Path>, overwrite: bool)

  datatype MovePolicy = MovePolicy(
    allowedRoots: seq<Path>,
    forbiddenRoots: seq<Path>,
    maxFilesPerCommand: int,
    maxItemsPerCommit: int,
    maxBackupSizeMB: int,
    maxBytesPerCommit: int)

  datatype PlanFault =
    | MissingArgument
    | PathDenied(path: Path)
    | SourceAbsent
    | SourceIsDirectory
    | DestinationIsDirectory
    | DestinationExists
    | TooManyFiles
    | TooManyItems
    | BackupTooLarge
    | TooManyBytes

  datatype PlanResult =
    | PlanOk(items: seq<PlanItem>, totalBytes: nat, overwriteTargets: seq<Path>)
    | PlanFail(fault: PlanFault)

  const EMPTY_PLAN := PlanOk([], 0, [])

  predicate PathAllowed(p: Path, policy: MovePolicy) {
    && (forall r :: r in policy.forbiddenRoots ==> !Under(p, r.parts))
    && (exists r :: r in policy.allowedRoots && Under(p, r.parts))
  }

  /** A forbidden root takes away the paths below it, whatever is allowed; an allowed root adds those
      below it that no forbidden root covers; without one nothing is allowed. */
  lemma RootsDecide(p: Path, policy: MovePolicy, root: Path)
    ensures PathAllowed(p, policy.(forbiddenRoots := policy.forbiddenRoots + [root])) <==>
            PathAllowed(p, policy) && !Under(p, root.parts)
    ensures PathAllowed(p, policy.(allowedRoots := policy.allowedRoots + [root])) <==>
            PathAllowed(p, policy) || (Under(p, root.parts) && !exists r :: r in policy.forbiddenRoots && Under(p, r.parts))
    ensures PathAllowed(p, policy.(allowedRoots := [])) <==> false
  {
    assert root in policy.allowedRoots + [root] && root in policy.forbiddenRoots + [root];
    assert forall r :: r in policy.forbiddenRoots ==> r in policy.forbiddenRoots + [root];
    assert forall r :: r in policy.allowedRoots ==> r in policy.allowedRoots + [root];
  }

  function TotalSize(items: seq<PlanItem>): nat {
    if items == [] then 0 else items[0].size + TotalSize(items[1..])
  }

  /** What a plan must satisfy to be accepted, read off the file system `stat`. */
  ghost predicate PlanStands(stat: Path -> Stat, args: MoveArgs, policy: MovePolicy, plan: PlanResult) {
    && plan.PlanOk? && args.source.Some? && args.destination.Some?
    && var src, dest := args.source.value, args.destination.value;
    && PathAllowed(src, policy) && PathAllowed(dest, policy)
    && stat(src).File? && !stat(dest).Directory? && (stat(dest).File? ==> args.overwrite)
    && plan.overwriteTargets == (if stat(dest).File? then [dest] else [])
    && PlannedPaths(plan.items) == [src] + plan.overwriteTargets
    && (forall it :: it in plan.items ==> stat(it.originalPath) == File(it.size, it.mtimeMs) && it.existsBefore)
    && plan.totalBytes == stat(src).size + (if stat(dest).File? then stat(dest).size else 0)
    && |plan.items| <= policy.maxFilesPerCommand && |plan.items| <= policy.maxItemsPerCommit
    && plan.totalBytes <= policy.maxBackupSizeMB * 1024 * 1024 && plan.totalBytes <= policy.maxBytesPerCommit
  }

  /** `buildFileMovePlan`, as a function of the file system's `stat`. */
  function MovePlan(stat: Path -> Stat, args: MoveArgs, policy: MovePolicy): PlanResult {
    if args.source.None? || args.destination.None? then PlanFail(MissingArgument)
    else
      var src, dest := args.source.value, args.destination.value;
      if !PathAllowed(src, policy) then PlanFail(PathDenied(src))
      else if !PathAllowed(dest, policy) then PlanFail(PathDenied(dest))
      else if stat(src).Absent? then PlanFail(SourceAbsent)
      else if stat(src).Directory? then PlanFail(SourceIsDirectory)
      else if stat(dest).Directory? then PlanFail(DestinationIsDirectory)
      else if stat(dest).File? && !args.overwrite then PlanFail(DestinationExists)
      else
        var first := PlanItem(src, true, stat(src).size, stat(src).mtimeMs);
        if stat(dest).File? then
          Capped([first, PlanItem(dest, true, stat(dest).size, stat(dest).mtimeMs)], [dest], policy)
        else Capped([first], [], policy)
  }

  function Capped(items: seq<PlanItem>, overwriteTargets: seq<Path>, policy: MovePolicy): PlanResult {
    var total := TotalSize(items);
    if |items| > policy.maxFilesPerCommand then PlanFail(TooManyFiles)
    else if |items| > policy.maxItemsPerCommit then PlanFail(TooManyItems)
    else if total > policy.maxBackupSizeMB * 1024 * 1024 then PlanFail(BackupTooLarge)
    else if total > policy.maxBytesPerCommit then PlanFail(TooManyBytes)
    else PlanOk(items, total, overwriteTargets)
  }

  /** A plan is accepted exactly when it stands, and then it lists the source and, if it exists,
      the destination. */
  lemma AcceptedPlansStand(stat: Path -> Stat, args: MoveArgs, policy: MovePolicy)
    ensures MovePlan(stat, args, policy).PlanOk? ==> PlanStands(stat, args, policy, MovePlan(stat, args, policy))
    ensures forall plan :: PlanStands(stat, args, policy, plan) ==> MovePlan(stat, args, policy) == plan
  {
    if args.source.Some? && args.destination.Some? {
      var src, dest := args.source.value, args.destination.value;
      if stat(src).File? {
        var first := PlanItem(src, true, stat(src).size, stat(src).mtimeMs);
        SizeOfOne(first);
        if stat(dest).File? {
          SizeOfTwo(first, PlanItem(dest, true, stat(dest).size, stat(dest).mtimeMs));
        }
        forall plan | PlanStands(stat, args, policy, plan)
          ensures MovePlan(stat, args, policy) == plan
        {
          StandingPlanIs(stat, args, policy, plan);
        }
      }
    }
  }

  lemma SizeOfOne(a: PlanItem)
    ensures TotalSize([a]) == a.size && PlannedPaths([a]) == [a.originalPath]
  {
    assert [a][1..] == [];
  }

  lemma SizeOfTwo(a: PlanItem, b: PlanItem)
    ensures TotalSize([a, b]) == a.size + b.size && PlannedPaths([a, b]) == [a.originalPath, b.originalPath]
  {
    assert [a, b][1..] == [b];
    SizeOfOne(b);
  }

  lemma StandingPlanIs(stat: Path -> Stat, args: MoveArgs, policy: MovePolicy, plan: PlanResult)
    requires PlanStands(stat, args, policy, plan)
    ensures MovePlan(stat, args, policy) == plan
  {
    var src, dest := args.source.value, args.destination.value;
    var first := PlanItem(src, true, stat(src).size, stat(src).mtimeMs);
    assert |plan.items| == |PlannedPaths(plan.items)|;
    assert plan.items[0] in plan.items && plan.items[0].originalPath == PlannedPaths(plan.items)[0];
    assert plan.items[0] == first;
    SizeOfOne(first);
    if stat(dest).File? {
      var second := PlanItem(dest, true, stat(dest).size, stat(dest).mtimeMs);
      assert plan.items[1] in plan.items && plan.items[1].originalPath == PlannedPaths(plan.items)[1];
      assert plan.items == [first, second];
      SizeOfTwo(first, second);
    } else {
      assert plan.items == [first];
    }
  }

  /** The order of the checks. */
  function CheckNo(f: PlanFault): nat {
    match f
    case MissingArgument => 0
    case PathDenied(_) => 1
    case SourceAbsent => 2
    case SourceIsDirectory => 3
    case DestinationIsDirectory => 4
    case DestinationExists => 5
    case TooManyFiles => 6
    case TooManyItems => 7
    case BackupTooLarge => 8
    case TooManyBytes => 9
  }

  /** The files a move would list, and their bytes. */
  function Listed(stat: Path -> Stat, dest: Path): nat {
    if stat(dest).File? then 2 else 1
  }

  function Bytes(stat: Path -> Stat, p: Path): nat {
    if stat(p).File? then stat(p).size else 0
  }

  /** The move has this fault, whatever others it has. */
  ghost predicate HasFault(stat: Path -> Stat, args: MoveArgs, policy: MovePolicy, f: PlanFault) {
    if args.source.None? || args.destination.None? then f == MissingArgument
    else
      var src, dest := args.source.value, args.destination.value;
      match f
      case MissingArgument => false
      case PathDenied(p) => !PathAllowed(p, policy) && (p == src || (p == dest && PathAllowed(src, policy)))
      case SourceAbsent => stat(src).Absent?
      case SourceIsDirectory => stat(src).Directory?
      case DestinationIsDirectory => stat(dest).Directory?
      case DestinationExists => stat(dest).File? && !args.overwrite
      case TooManyFiles => Listed(stat, dest) > policy.maxFilesPerCommand
      case TooManyItems => Listed(stat, dest) > policy.maxItemsPerCommit
      case BackupTooLarge => Bytes(stat, src) + Bytes(stat, dest) > policy.maxBackupSizeMB * 1024 * 1024
      case TooManyBytes => Bytes(stat, src) + Bytes(stat, dest) > policy.maxBytesPerCommit
  }

  /** A move is refused exactly when it has a fault, and then for the first one in the order of the
      checks. */
  lemma FirstFaultNamed(stat: Path -> Stat, args: MoveArgs, policy: MovePolicy)
    ensures MovePlan(stat, args, policy).PlanOk? <==> forall f :: !HasFault(stat, args, policy, f)
    ensures MovePlan(stat, args, policy).PlanFail? ==>
      var f := MovePlan(stat, args, policy).fault;
      HasFault(stat, args, policy, f) && forall g :: CheckNo(g) < CheckNo(f) ==> !HasFault(stat, args, policy, g)
  {
    if args.source.Some? && args.destination.Some? {
      var src, dest := args.source.value, args.destination.value;
      if stat(src).File? {
        var first := PlanItem(src, true, stat(src).size, stat(src).mtimeMs);
        SizeOfOne(first);
        if stat(dest).File? {
          SizeOfTwo(first, PlanItem(dest, true, stat(dest).size, stat(dest).mtimeMs));
        }
      }
    }
    if MovePlan(stat, args, policy).PlanOk? {
      forall f
        ensures !HasFault(stat, args, policy, f)
      {
        AcceptedPlansStand(stat, args, policy);
      }
    } else {
      assert HasFault(stat, args, policy, MovePlan(stat, args, policy).fault);
    }
  }

  /** The first path that the policy does not allow. */
  function Denied(paths: seq<Path>, policy: MovePolicy): (denied: Option<Path>)
    ensures denied.None? <==> forall i :: 0 <= i < |paths| ==> PathAllowed(paths[i], policy)
  {
    if paths == [] then None
    else
      var front := Denied(paths[..|paths| - 1], policy);
      if front.Some? then front
      else if PathAllowed(paths[|paths| - 1], policy) then None else Some(paths[|paths| - 1])
  }

  ghost predicate FirstDenied(paths: seq<Path>, policy: MovePolicy, i: nat)
    requires i < |paths|
  {
    !PathAllowed(paths[i], policy) && forall j :: 0 <= j < i ==> PathAllowed(paths[j], policy)
  }

  method ValidatePaths(paths: seq<Path>, policy: MovePolicy) returns (denied: Option<Path>)
    ensures denied.None? <==> forall i :: 0 <= i < |paths| ==> PathAllowed(paths[i], policy)
    ensures denied.Some? ==> exists i :: 0 <= i < |paths| && FirstDenied(paths, policy, i) && denied.value == paths[i]
    ensures denied == Denied(paths, policy)
  {
    for i := 0 to |paths|
      invariant forall j :: 0 <= j < i ==> PathAllowed(paths[j], policy)
    {
      if !PathAllowed(paths[i], policy) {
        assert FirstDenied(paths, policy, i);
        FirstDeniedIs(paths, policy, i);
        return Some(paths[i]);
      }
    }
    return None;
  }

  lemma {:induction false} FirstDeniedIs(paths: seq<Path>, policy: MovePolicy, i: nat)
    requires i < |paths| && FirstDenied(paths, policy, i)
    ensures Denied(paths, policy) == Some(paths[i])
    decreases |paths|
  {
    var front := paths[..|paths| - 1];
    if i < |front| {
      FirstDeniedIs(front, policy, i);
    } else {
      assert forall j :: 0 <= j < |front| ==> front[j] == paths[j];
    }
  }

  method BuildFileMovePlan(disk: Disk, args: MoveArgs, policy: MovePolicy) returns (r: PlanResult)
    ensures r == MovePlan(disk.Stats(), args, policy)
  {
    if args.source.None? || args.destination.None? {
      return PlanFail(MissingArgument);
    }
    var absSrc, absDest := args.source.value, args.destination.value;
    var denied := ValidatePaths([absSrc, absDest], policy);
    if denied.Some? {
      assert PathAllowed(absSrc, policy) <==> PathAllowed([absSrc, absDest][0], policy);
      return PlanFail(PathDenied(denied.value));
    }
    assert PathAllowed([absSrc, absDest][0], policy) && PathAllowed([absSrc, absDest][1], policy);
    var st := disk.Stats()(absSrc);
    if st.Absent? { return PlanFail(SourceAbsent); }
    if st.Directory? { return PlanFail(SourceIsDirectory); }
    var items := [PlanItem(absSrc, true, st.size, st.mtimeMs)];
    var overwriteTargets: seq<Path> := [];
    var dst := disk.Stats()(absDest);
    if dst.Directory? { return PlanFail(DestinationIsDirectory); }
    if dst.File? {
      if !args.overwrite { return PlanFail(DestinationExists); }
      overwriteTargets := overwriteTargets + [absDest];
      items := items + [PlanItem(absDest, true, dst.size, dst.mtimeMs)];
    }
    if |items| > policy.maxFilesPerCommand { return PlanFail(TooManyFiles); }
    if |items| > policy.maxItemsPerCommit { return PlanFail(TooManyItems); }
    var totalBytes := TotalSize(items);
    if totalBytes > policy.maxBackupSizeMB * 1024 * 1024 { return PlanFail(BackupTooLarge); }
    if totalBytes > policy.maxBytesPerCommit { return PlanFail(TooManyBytes); }
    return PlanOk(items, totalBytes, overwriteTargets);
  }

  // ----- Plans of other commands -----

  /** What COMMIT does: a file move, or a workflow whose plan lists no files, which must be allowed
      to write at the `checked` paths and which writes anything it likes within `footprint`. */
  datatype Command =
    | MoveFile(args: MoveArgs)
    | Workflow(checked: seq<Path>, footprint: set<Path>)

  function PlanFor(stat: Path -> Stat, cmd: Command, policy: MovePolicy): PlanResult {
    match cmd
    case MoveFile(args) => MovePlan(stat, args, policy)
    case Workflow(checked, _) =>
      var denied := Denied(checked, policy);
      if denied.Some? then PlanFail(PathDenied(denied.value)) else EMPTY_PLAN
  }

  /** A workflow's plan lists nothing, and is refused exactly for a path not allowed, the first one. */
  lemma WorkflowPlan(stat: Path -> Stat, checked: seq<Path>, footprint: set<Path>, policy: MovePolicy)
    ensures var plan := PlanFor(stat, Workflow(checked, footprint), policy);
            if forall i :: 0 <= i < |checked| ==> PathAllowed(checked[i], policy) then plan == PlanOk([], 0, [])
            else exists i :: 0 <= i < |checked| && FirstDenied(checked, policy, i) && plan == PlanFail(PathDenied(checked[i]))
  {
    if i :| 0 <= i < |checked| && !PathAllowed(checked[i], policy) {
      FirstDeniedExists(checked, policy, i);
      var k :| 0 <= k < |checked| && FirstDenied(checked, policy, k);
      FirstDeniedIs(checked, policy, k);
    }
  }

  lemma {:induction false} FirstDeniedExists(paths: seq<Path>, policy: MovePolicy, i: nat)
    requires i < |paths| && !PathAllowed(paths[i], policy)
    ensures exists k :: 0 <= k < |paths| && FirstDenied(paths, policy, k)
  {
    if j :| 0 <= j < i && !PathAllowed(paths[j], policy) {
      FirstDeniedExists(paths, policy, j);
    } else {
      assert FirstDenied(paths, policy, i);
    }
  }

  method MakePlan(disk: Disk, cmd: Command, policy: MovePolicy) returns (r: PlanResult)
    ensures r == PlanFor(disk.Stats(), cmd, policy)
  {
    match cmd
    case MoveFile(args) => r := BuildFileMovePlan(disk, args, policy);
    case Workflow(checked, _) =>
      var denied := ValidatePaths(checked, policy);
      r := if denied.Some? then PlanFail(PathDenied(denied.value)) else EMPTY_PLAN;
  }

  // ----- Approval -----

  function PathTexts(paths: seq<Path>): seq<Text> {
    seq(|paths|, i requires 0 <= i < |paths| => PathText(paths[i]))
  }

  function PartsOf(plan: PlanResult): PreviewParts
    requires plan.PlanOk?
  {
    PreviewParts(PathTexts(PlannedPaths(plan.items)), |plan.items|, plan.totalBytes, PathTexts(plan.overwriteTargets))
  }

  /** The hash of a plan, as both the preview and the pipeline compute it. */
  function ApprovalHash(h: Text -> Text, norm: Text -> Text, action: Action, plan: PlanResult, ws: Path): Text
    requires plan.PlanOk?
  {
    PlanHash(h, norm, action, PartsOf(plan), PathText(ws))
  }

  /** What the hash of a plan is taken of: the canonical plan that lists the planned paths and those to
      be overwritten, ascending, their number and bytes, and the action. */
  lemma HashedPlan(h: Text -> Text, norm: Text -> Text, action: Action, plan: PlanResult, ws: Path) returns (c: CanonicalPlan)
    requires plan.PlanOk?
    ensures ApprovalHash(h, norm, action, plan, ws) == h(PlanText(c))
    ensures c.category == action.category && c.intent == action.intent && c.mutationKind == action.mutationKind
    ensures c.requiresApproval == action.requiresApproval && c.internalHighRisk == action.internalHighRisk
    ensures Ascending(c.affectedPaths) && Ascending(c.overwriteTargets)
    ensures multiset(c.affectedPaths) == multiset(Normalised(norm, PathTexts(PlannedPaths(plan.items))))
    ensures multiset(c.overwriteTargets) == multiset(Normalised(norm, PathTexts(plan.overwriteTargets)))
    ensures c.fileCount == ToInt32(|plan.items|) && c.totalBytes == ToInt32(plan.totalBytes)
    ensures c.workspaceRoot == norm(PathText(ws))
  {
    c := BuildCanonicalPlan(norm, action, PartsOf(plan), PathText(ws));
    SortSorts(Normalised(norm, PathTexts(PlannedPaths(plan.items))));
    SortSorts(Normalised(norm, PathTexts(plan.overwriteTargets)));
  }

  /** Parse-time preview of a mutating command: the hash of its plan, or no hash if the intent has no
      plan (`cmd` is `None`) or the plan is refused. */
  method BuildPlanPreview(disk: Disk, h: Text -> Text, norm: Text -> Text, action: Action, cmd: Option<Command>, policy: MovePolicy, ws: Path)
    returns (previewHash: Option<Text>)
    ensures previewHash.Some? <==> action.isMutating && cmd.Some? && PlanFor(disk.Stats(), cmd.value, policy).PlanOk?
    ensures previewHash.Some? ==>
      previewHash.value == ApprovalHash(h, norm, action, PlanFor(disk.Stats(), cmd.value, policy), ws)
  {
    if !action.isMutating { return None; }
    if cmd.None? { return None; }
    var r := MakePlan(disk, cmd.value, policy);
    if r.PlanFail? { return None; }
    return Some(ApprovalHash(h, norm, action, r, ws));
  }

  /** One of the byte caps keeps every accepted total below 2^32. */
  predicate TotalsCapped(policy: MovePolicy) {
    policy.maxBytesPerCommit < 0x1_0000_0000 || policy.maxBackupSizeMB * 1024 * 1024 < 0x1_0000_0000
  }

  /** With a byte cap below 2^32, an accepted hash means the same command class, the same bag of
      affected and overwritten paths, and the same byte total: the 32-bit counters tell the totals
      apart. */
  lemma AcceptedHashBinds(h: Text -> Text, norm: Text -> Text, ws: Path,
                          a: Action, p: PlanResult, b: Action, q: PlanResult,
                          pStat: Path -> Stat, pArgs: MoveArgs, qStat: Path -> Stat, qArgs: MoveArgs, policy: MovePolicy)
    requires Ideal(h) && TotalsCapped(policy)
    requires p.PlanOk? && p == MovePlan(pStat, pArgs, policy)
    requires q.PlanOk? && q == MovePlan(qStat, qArgs, policy)
    ensures ApprovalHash(h, norm, a, p, ws) == ApprovalHash(h, norm, b, q, ws) <==>
            && a.category == b.category && a.intent == b.intent && a.mutationKind == b.mutationKind
            && a.requiresApproval == b.requiresApproval && a.internalHighRisk == b.internalHighRisk
            && multiset(Normalised(norm, PathTexts(PlannedPaths(p.items)))) == multiset(Normalised(norm, PathTexts(PlannedPaths(q.items))))
            && multiset(Normalised(norm, PathTexts(p.overwriteTargets))) == multiset(Normalised(norm, PathTexts(q.overwriteTargets)))
            && |p.items| == |q.items| && p.totalBytes == q.totalBytes
  {
    AcceptedPlansStand(pStat, pArgs, policy);
    AcceptedPlansStand(qStat, qArgs, policy);
    assert |PlannedPaths(p.items)| == |p.items| <= 2 && |PlannedPaths(q.items)| == |q.items| <= 2;
    ApprovalHashBinds(h, norm, a, PartsOf(p), PathText(ws), b, PartsOf(q), PathText(ws));
    TruncationInjective(p.totalBytes, q.totalBytes);
    TruncationInjective(|p.items|, |q.items|);
  }

  /** Accepted plans that share a hash share their byte total. */
  ghost predicate TotalsBound(h: Text -> Text, norm: Text -> Text, policy: MovePolicy, ws: Path) {
    forall a: Action, pStat, pArgs, b: Action, qStat, qArgs ::
      var p, q := MovePlan(pStat, pArgs, policy), MovePlan(qStat, qArgs, policy);
      p.PlanOk? && q.PlanOk? && ApprovalHash(h, norm, a, p, ws) == ApprovalHash(h, norm, b, q, ws) ==>
      p.totalBytes == q.totalBytes
  }

  /** For a policy that permits some move at all, the hash binds the byte total exactly when one of
      the two byte caps is below 2^32. */
  lemma TotalsBoundIffCapped(h: Text -> Text, norm: Text -> Text, policy: MovePolicy, ws: Path, src: Path, dest: Path)
    requires Ideal(h)
    requires PathAllowed(src, policy) && PathAllowed(dest, policy) && src != dest
    requires policy.maxFilesPerCommand >= 1 && policy.maxItemsPerCommit >= 1
    ensures TotalsBound(h, norm, policy, ws) <==> TotalsCapped(policy)
  {
    if TotalsCapped(policy) {
      forall a: Action, pStat, pArgs, b: Action, qStat, qArgs |
        MovePlan(pStat, pArgs, policy).PlanOk? && MovePlan(qStat, qArgs, policy).PlanOk? &&
        ApprovalHash(h, norm, a, MovePlan(pStat, pArgs, policy), ws) == ApprovalHash(h, norm, b, MovePlan(qStat, qArgs, policy), ws)
        ensures MovePlan(pStat, pArgs, policy).totalBytes == MovePlan(qStat, qArgs, policy).totalBytes
      {
        AcceptedHashBinds(h, norm, ws, a, MovePlan(pStat, pArgs, policy), b, MovePlan(qStat, qArgs, policy),
                          pStat, pArgs, qStat, qArgs, policy);
      }
    } else {
      var small, large := OnlyFile(src, 0), OnlyFile(src, 0x1_0000_0000);
      var args := MoveArgs(Some(src), Some(dest), false);
      OneFilePlan(src, dest, 0, policy);
      OneFilePlan(src, dest, 0x1_0000_0000, policy);
      var a := Action([], [], [], true, true, false);
      var p, q := MovePlan(small, args, policy), MovePlan(large, args, policy);
      assert PartsOf(q) == PartsOf(p).(totalBytes := p.totalBytes + 0x1_0000_0000);
      TruncatedTotalsCollide(h, norm, a, PartsOf(p), PathText(ws));
      assert ApprovalHash(h, norm, a, p, ws) == ApprovalHash(h, norm, a, q, ws);
    }
  }

  /** A file system with one file. */
  function OnlyFile(src: Path, size: nat): Path -> Stat {
    p => if p == src then File(size, 0) else Absent
  }

  lemma OneFilePlan(src: Path, dest: Path, size: nat, policy: MovePolicy)
    requires PathAllowed(src, policy) && PathAllowed(dest, policy) && src != dest
    requires policy.maxFilesPerCommand >= 1 && policy.maxItemsPerCommit >= 1
    requires size <= policy.maxBackupSizeMB * 1024 * 1024 && size <= policy.maxBytesPerCommit
    ensures MovePlan(OnlyFile(src, size), MoveArgs(Some(src), Some(dest), false), policy) ==
            PlanOk([PlanItem(src, true, size, 0)], size, [])
    ensures PlannedPaths([PlanItem(src, true, size, 0)]) == [src]
  {
    SizeOfOne(PlanItem(src, true, size, 0));
  }

  /** Every accepted plan keeps its byte total through the 32-bit truncation. */
  ghost predicate TotalsSurvive(policy: MovePolicy) {
    forall stat, args :: MovePlan(stat, args, policy).PlanOk? ==>
      ToInt32(MovePlan(stat, args, policy).totalBytes) == MovePlan(stat, args, policy).totalBytes
  }

  /** For a policy that permits some move at all, that holds exactly when one of the two byte caps
      is below 2^31. */
  lemma TotalsSurviveIffCapped(policy: MovePolicy, src: Path, dest: Path)
    requires PathAllowed(src, policy) && PathAllowed(dest, policy) && src != dest
    requires policy.maxFilesPerCommand >= 1 && policy.maxItemsPerCommit >= 1
    ensures TotalsSurvive(policy) <==>
            policy.maxBytesPerCommit < 0x8000_0000 || policy.maxBackupSizeMB * 1024 * 1024 < 0x8000_0000
  {
    if policy.maxBytesPerCommit < 0x8000_0000 || policy.maxBackupSizeMB * 1024 * 1024 < 0x8000_0000 {
      forall stat, args | MovePlan(stat, args, policy).PlanOk?
        ensures ToInt32(MovePlan(stat, args, policy).totalBytes) == MovePlan(stat, args, policy).totalBytes
      {
        AcceptedPlansStand(stat, args, policy);
        TruncationLossless(MovePlan(stat, args, policy).totalBytes);
      }
    } else {
      var stat, args := OnlyFile(src, 0x8000_0000), MoveArgs(Some(src), Some(dest), false);
      OneFilePlan(src, dest, 0x8000_0000, policy);
      TruncationLossless(0x8000_0000);
      assert ToInt32(MovePlan(stat, args, policy).totalBytes) != MovePlan(stat, args, policy).totalBytes;
    }
  }
}
