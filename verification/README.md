# Executor verification

Dafny models of the deterministic core of the repository, with proofs of what that core promises:

- **Plan adoption** (`EditDistance`, `PlanAdoption`): which step sequences proposed by the planner
  model are ever run. The nested-loop table is proved to compute the length of a shortest edit script,
  and adoption is characterised exactly: the static sequence, an interior swap of it, or an interior
  move of it.
- **Approval** (`Json`, `CanonicalPlan`, `MovePlans`): the canonical JSON text is read back in one way
  only, so the approval hash names a plan; what it binds, and where its 32-bit counters lose bits.
- **Safekeep pipeline** (`Disks`, `FileMove`, `Snapshots`, `SnapshotHistory`, `Pipeline`): PLAN, approval, copy-on-write
  BACKUP, COMMIT and rollback over a file system whose every operation may fail. Gate ordering,
  conservation of a move, restoration after a failed commit, and how many faults it takes to lose it.
- **Audit chain** (`AuditChain`, `AuditRecords`): appending and verifying the hash-chained day log; a last hash pins
  the whole log.
- **Circuit breaker and rate limiter** (`ToolBreaker`): invariants of every reachable state, exact
  retry times, and the bound on admitted mutating commands in every 60-second window.
- **Job queue and worker pool** (`JobQueue`, `WorkerPool`): every interleaving of claims, executions,
  two-statement failure marks, enqueues and drain polls.
- **Sequencers** (`Workflow`, `StageEngine`, `StageVerdict`): trace shape and final verdict for arbitrary
  handlers and stage tools; what the evidence, a success and the quality gate's approval tell about the stages.
- **Policy merge and country order** (`PolicyMerge`, `CountryOrder`).

Code that updates state in place is modelled by classes and methods (`Disk`, `AuditStore`, `Breakers`,
`JobTable`); each method is proved against a function or predicate of the state before it, and the
lemmas are about those. Two assumptions are stated once and named where used: `Texts.Ideal` (SHA-256 of
a text never collides and is a nonempty run of hexadecimal digits) and `Disks.Collisionless` (the same
for file contents). `dafny verify dfyconfig.toml` checks the whole project.

## Where the code differs from its promise

Each entry holds of the code as it is and comes with the exact condition under which the promise is kept.

- The comment over `canonicalJsonStringify` excludes `undefined`; the code prints it as the word
  "undefined" (`CanonicalPlan.UndefinedCollides`). Two values have the same text exactly when they are equal
  up to key order and that one identification (`CanonicalPlan.CanonicalIffSame`).
- Byte totals are truncated to 32 bits before hashing, so totals 2^32 apart share an approval hash
  (`CanonicalPlan.TruncatedTotalsCollide`). Accepted plans that share a hash share their byte total exactly
  when one of the two byte caps is below 2^32 (`MovePlans.TotalsBoundIffCapped`). The total that is hashed is
  the true one for every accepted plan exactly when one of them is below 2^31
  (`MovePlans.TotalsSurviveIffCapped`).
- The chain head is shared by all day files while the verifier starts each of them at `genesis`. Over any
  history of appends a day file verifies exactly when it is empty, or the store began without a head and
  that day's records are one block at the very beginning (`AuditChain.DayFileVerifiesIff`); one append of
  another day in between is enough to spoil it (`AuditChain.InterruptedDay`).
- An append that fails between the log and the head leaves a file that the next line in it breaks, unless
  the head left behind is the hash of the line left behind (`AuditChain.InterruptedAppend`). Over any history
  of appends, such failures included, a day file verifies exactly when every append to it found the file's
  last hash in the head (`AuditChain.TornFileVerifiesIff`).
- The verifier throws instead of reporting a broken line exactly when the first broken line is the JSON
  literal `null` (`AuditChain.VerifyChainLines`).
- Backup hashes the copy, not the original: a sealed backup with a wrong copy, such as the code can leave,
  passes every check of restore, which then puts the wrong bytes in place
  (`Snapshots.CorruptBackupUndetected`). A restore that reports every item puts the originals back exactly
  when each recorded digest is that of the original (`Snapshots.RestoreReinstatesIff`), which for an intact
  backup means that each copy equals its original (`Snapshots.RecordsStateIff`). Rollback is therefore
  proved for faithful copies; and for a move met by at most two faults of any kind, such copies included,
  without that assumption (`Pipeline.RunMutationPipeline`).
- A new snapshot is numbered by counting the entries that begin like one. After deletions, or with other
  entries that begin so, the next backup goes into an existing directory exactly when the number it counts
  to is that of a snapshot still there, or the name of such an entry (`SnapshotHistory.NextTakenIff`), and an
  earlier snapshot outlives a later backup exactly when that one went elsewhere
  (`SnapshotHistory.OutlivesIff`).
- A file moved onto itself with overwriting allowed is deleted, and the move then fails; without
  overwriting it stays (`FileMove.CommitFileMoveAtomic`). The pipeline's rollback puts it back
  (`Pipeline.RunMutationPipeline`).
- The comment over `evaluateToolBreaker` speaks of one probe; half-open lets every call through until an
  outcome is recorded (`ToolBreaker.HalfOpenAdmitsEveryCall`). After a trip the calls let through are
  exactly those decided when the cooldown since the last trip is over, where a request beyond the rate limit
  is a trip anew (`ToolBreaker.CallsAfterTrip`), so that it is one probe exactly when at most one such call
  arrives (`ToolBreaker.SingleProbeIff`).
- The rate limit bounds the rate exactly when the cooldown is positive
  (`ToolBreaker.RateBoundedIffCooldown`).
- A snapshot's retry time is exact unless the breaker is held for a manual reset
  (`ToolBreaker.SnapshotRetryExactIff`), and the limiter can come to that exactly where manual resets are
  required, the failure threshold is at least two and the cooldown is positive (`ToolBreaker.MisreportsIff`).
- A breaker held for a manual reset is released without one by a success, by a request beyond the rate
  limit, and by a failure that reaches the threshold or whose reason does not begin with MANUAL; by nothing
  else (`ToolBreaker.HoldSurvivesIff`).
- A job is claimed at most as often as its `max_attempts` says, on every run, exactly when that is at least
  one; otherwise it is executed once all the same (`WorkerPool.LimitKeptIff`).
- The worker pool waits for the last job exactly when the grace period is at least one poll interval,
  0.25 s (`WorkerPool.PoolStopsOnlyDrainedIff`).
- A workflow passes all its steps and still falls through to the error return exactly when its last step
  allows no attempt, or it has no step (`Workflow.RunWorkflowPlan`, `Workflow.SkippedIff`).
- SUCCEEDED does not mean that every stage passed: a retried stage whose limit is negative is never called,
  and the run that stops there is reported as a success. It means so exactly under the policies whose four
  limits are at least one (`StageVerdict.SuccessMeansPassedIff`).
- Such a run can even be APPROVED, with the default gate for instance when the runtime stage is the one
  never called. APPROVED means that every stage passed exactly when no stage is left uncalled, or the gate asks
  for something that a run stopped at the first uncalled stage does not leave: what that stage or a later one
  would have left, or a screenshot comparison in a dry run (`StageVerdict.ApprovalMeansPassedIff`).
- Some demands can never be met: at most one screenshot is taken on a device and none elsewhere, and a dry
  run compares none, whatever `runtime_capture_min_screenshots` and `paparazzi_verify_required` ask for
  (`StageVerdict.ApprovableIff`).
- Normalising the screenshot block again changes it exactly when the payload gives something that is not a
  dictionary while the project configures some (`PolicyMerge.ScreenshotBlockStableIff`).

## Model

| member | source | states |
|---|---|---|
| EditDistance.Levenshtein | hex-executor-console-backend/src/planner/planDiff.ts:3-20 | the table's last cell is the length of a shortest script of single insertions, deletions and substitutions: some script of that length exists and none is shorter |
| EditDistance.InitBorders | hex-executor-console-backend/src/planner/planDiff.ts:6-8 | row 0 and column 0 of the table count up |
| EditDistance.FillRow | hex-executor-console-backend/src/planner/planDiff.ts:9-18 | one pass of the inner loop turns a correct row into the next correct row |
| EditDistance.CellIsDistance | hex-executor-console-backend/src/planner/planDiff.ts:9-19 | every cell of the table is the edit distance of the two prefixes |
| EditDistance.ShortestScript | hex-executor-console-backend/src/planner/planDiff.ts:9-19 | a script of exactly that many edits turns the first sequence into the second |
| EditDistance.NoShorterScript | hex-executor-console-backend/src/planner/planDiff.ts:9-19 | every script between the two sequences has at least that many edits |
| EditDistance.OneEdit | hex-executor-console-backend/src/planner/planDiff.ts:11-16 | one edit, anywhere, moves a sequence by a distance of at most one |
| EditDistance.DistanceBounds | hex-executor-console-backend/src/planner/planDiff.ts:3-20 | the distance is at least the difference of the lengths and at most the longer length |
| EditDistance.DistanceSymmetric | hex-executor-console-backend/src/planner/planDiff.ts:3-20 | the distance is symmetric |
| EditDistance.DistanceZeroIffEqual | hex-executor-console-backend/src/planner/planDiff.ts:3-20 | the distance is zero exactly between equal sequences |
| EditDistance.TriangleInequality | hex-executor-console-backend/src/planner/planDiff.ts:3-20 | the triangle inequality |
| PlanAdoption.Validate | hex-executor-console-backend/src/planner/planValidator.ts:56-107 | accepts exactly well-sized plans whose trimmed names are allowed, known and distinct and cover the static ids; a rejection names the first fault; an accepted plan keeps the static retry limits |
| PlanAdoption.CleanPlansCover | hex-executor-console-backend/src/planner/planValidator.ts:76-101 | distinct known names, as many as there are static steps, are all of them (pigeonhole) |
| PlanAdoption.MissingCapabilityNeverBlamed | hex-executor-console-backend/src/planner/planValidator.ts:96-101 | the final missing-capability check can never fire |
| PlanAdoption.AcceptableRearranges | hex-executor-console-backend/src/planner/planValidator.ts:56-107 | a validated plan is a permutation of the static steps |
| PlanAdoption.ShouldAdopt | hex-executor-console-backend/src/planner/planDiff.ts:28-46 | adopts exactly the equal sequence, or equal length, distance at most 2 and both ends kept |
| PlanAdoption.NeverDistanceOne | hex-executor-console-backend/src/planner/planDiff.ts:40-44 | a rearrangement is never at distance 1 |
| PlanAdoption.ShortScripts | hex-executor-console-backend/src/planner/planDiff.ts:40-44 | any script of at most two edits between rearrangements amounts to nothing, a swap or a move |
| PlanAdoption.SwapWithinTwo | hex-executor-console-backend/src/planner/planDiff.ts:40-44 | every swap is within distance 2 |
| PlanAdoption.MoveWithinTwo | hex-executor-console-backend/src/planner/planDiff.ts:40-44 | every move is within distance 2 |
| PlanAdoption.AdoptionIsFamily | hex-executor-console-backend/src/planner/planDiff.ts:28-46 | among rearrangements, adopted means exactly: the static sequence, an interior swap of it, or an interior move of it |
| PlanAdoption.Resolve | hex-executor-console-backend/src/planner/plannerProvider.ts:36-110 | the proposed plan is run exactly when it validates and lies in that family; otherwise the static plan is run unchanged |
| Json.QuotedUnique | hex-executor-console-backend/src/safekeep/canonicalPlan.ts:44-46 | a quoted string followed by any text is read back in one way only, escapes and surrogates included |
| Json.NumeralUnique | hex-executor-console-backend/src/safekeep/canonicalPlan.ts:41-43 | an integer numeral before a delimiter is read back in one way only |
| Json.PrintUnique | hex-executor-console-backend/src/safekeep/canonicalPlan.ts:40-57 | a printed value followed by a delimiter is read back in one way only |
| Json.PrintInjective | hex-executor-console-backend/src/safekeep/canonicalPlan.ts:40-57 | two values without `undefined` print alike exactly when they are equal, field order included |
| Json.PrintWellFormed | hex-executor-console-backend/src/safekeep/canonicalPlan.ts:40-57 | the printed text holds no lone surrogate, so encoding it for the hash loses nothing |
| Json.ArrayText | hex-executor-console-backend/src/safekeep/canonicalPlan.ts:47-49 | an array is its items' texts between brackets, with commas between them |
| Json.ObjectText | hex-executor-console-backend/src/safekeep/canonicalPlan.ts:50-55 | an object is its quoted keys, colons and values between braces, with commas between them |
| Json.PlainQuoted | hex-executor-console-backend/src/safekeep/canonicalPlan.ts:44-46 | a text without quotes, backslashes, controls and surrogates is quoted as it is |
| Json.EscapeTable | hex-executor-console-backend/src/safekeep/canonicalPlan.ts:44-46 | the short escapes and the hexadecimal ones of the other controls |
| CanonicalPlan.NormalIffSame | hex-executor-console-backend/src/safekeep/canonicalPlan.ts:50-54 | sorting keys at every level identifies exactly the values equal up to key order |
| CanonicalPlan.CanonicalIffSame | hex-executor-console-backend/src/safekeep/canonicalPlan.ts:40-57 | two values have the same canonical text exactly when they are equal up to key order |
| CanonicalPlan.CanonicalObject | hex-executor-console-backend/src/safekeep/canonicalPlan.ts:50-55 | an object is printed with each of its keys once, in ascending order, each with its canonical value |
| CanonicalPlan.UndefinedCollides | hex-executor-console-backend/src/safekeep/canonicalPlan.ts:56 | `undefined` and the word "undefined" have the same canonical text |
| CanonicalPlan.PlanTextIdentifies | hex-executor-console-backend/src/safekeep/canonicalPlan.ts:59-84 | two canonical plans have the same text exactly when all ten fields agree |
| CanonicalPlan.PlanEntries | hex-executor-console-backend/src/safekeep/canonicalPlan.ts:59-79 | under each of its ten names a canonical plan holds that part of action, preview or workspace, the path lists ascending |
| CanonicalPlan.ApprovalHashBinds | hex-executor-console-backend/src/safekeep/canonicalPlan.ts:81-84 | two approvals share a hash exactly when they agree in everything but path order and the bits dropped from the counters |
| CanonicalPlan.PathOrderIrrelevant | hex-executor-console-backend/src/safekeep/canonicalPlan.ts:65-66 | reordering the input paths never changes the hash |
| CanonicalPlan.TruncationLossless | hex-executor-console-backend/src/safekeep/canonicalPlan.ts:73-74 | a counter survives truncation exactly below 2^31 |
| CanonicalPlan.TruncatedTotalsCollide | hex-executor-console-backend/src/safekeep/canonicalPlan.ts:73-74 | totals 2^32 apart share a hash |
| Texts.SortIsOrderBlind | hex-executor-console-backend/src/safekeep/canonicalPlan.ts:65-66 | two path lists sort alike exactly when one is a reordering of the other |
| Texts.BeforeIff | hex-executor-console-backend/src/safekeep/canonicalPlan.ts:65-66 | sorting is by the first code unit in which two texts differ, a prefix coming first |
| Texts.TrimSplits | hex-executor-console-backend/src/safekeep/audit.ts:36 | trimming takes all white space off both ends and nothing else |
| AuditChain.AuditStore.AppendAudit | hex-executor-console-backend/src/safekeep/audit.ts:27-50 | the line is appended to its day file only, chained to the old head, and becomes the head, so that a store made by some appends is then made by those and this one; a failure writes nothing, or the line without the head |
| AuditChain.VerifyChainLines | hex-executor-console-backend/src/safekeep/auditVerify.ts:22-76 | accepts exactly valid chains, counting all lines; otherwise the lines before the reported one are a valid chain, that line does not link, and the fault is its first one; throws exactly at a literal `null` |
| AuditChain.BrokenForGood | hex-executor-console-backend/src/safekeep/auditVerify.ts:22-76 | a chain broken at some line stays broken however it goes on |
| AuditChain.LineReadsBack | hex-executor-console-backend/src/safekeep/audit.ts:41-46 | an appended line yields the record and both hashes when it is destructured by the verifier |
| AuditChain.ChainEndsInHead | hex-executor-console-backend/src/safekeep/audit.ts:34-47 | appends from `genesis` give a valid chain, one line a record, that ends in the stored head |
| AuditChain.DayFileVerifiesIff | hex-executor-console-backend/src/safekeep/audit.ts:27-50 | over any history of appends of any days: the file of a day verifies exactly when it is empty, or the store began at `genesis` and that day's records are one block at the very beginning |
| AuditChain.StoreVerifiesIff | hex-executor-console-backend/src/safekeep/audit.ts:27-50 | the same of the store's own files after any appends that went through |
| AuditChain.InterruptedDay | hex-executor-console-backend/src/safekeep/audit.ts:30-47 | one record of another day between two of a day breaks that day's file |
| AuditChain.HeadsTellLength | hex-executor-console-backend/src/safekeep/audit.ts:34-47 | a history begun at `genesis` never comes back to an earlier head |
| AuditChain.TornFileVerifiesIff | hex-executor-console-backend/src/safekeep/audit.ts:27-50 | over any history of appends, each complete or failed between the log and the head with anything left as the head: the file of a day verifies exactly when every append of that day found the file's last hash as the head |
| AuditChain.TornStoreVerifiesIff | hex-executor-console-backend/src/safekeep/audit.ts:27-50 | the same of the store's own files after any appends that wrote their line |
| AuditChain.InterruptedAppend | hex-executor-console-backend/src/safekeep/audit.ts:46-47 | after an append that failed before the head was written the file verifies, and the next line keeps it so exactly when the head left behind is the hash of the line left behind |
| AuditChain.DigestBinds | hex-executor-console-backend/src/safekeep/auditVerify.ts:8-10 | an entry hash determines the previous hash and the payload |
| AuditChain.LastHashPinsLog | hex-executor-console-backend/src/safekeep/auditVerify.ts:22-76 | two accepted logs that end in the same hash hold the same records and hashes |
| AuditRecords.RecordReads | hex-executor-console-backend/src/safekeep/audit.ts:41-46 | read back by its key, each entry of a line's payload is that field of the record; an absent optional field is absent |
| AuditRecords.HashedText | hex-executor-console-backend/src/safekeep/audit.ts:41-43 | an entry hash is taken of the head before it, a bar and the record's text |
| AuditRecords.PayloadNamesRecord | hex-executor-console-backend/src/safekeep/audit.ts:41-46 | equal payloads are of equal records |
| AuditRecords.DigestNamesRecord | hex-executor-console-backend/src/safekeep/audit.ts:41-43 | an entry hash determines the head before it and the record |
| AuditRecords.HeadPinsHistory | hex-executor-console-backend/src/safekeep/audit.ts:34-47 | two histories begun at `genesis` that lead to the same head are the same, record by record |
| AuditRecords.DayNamesDate | hex-executor-console-backend/src/safekeep/audit.ts:30 | the file of a dated record is named by year, month and day without hyphens |
| AuditRecords.SameFileIff | hex-executor-console-backend/src/safekeep/audit.ts:30-31 | two dated records go to the same file exactly when they are of the same day |
| AuditRecords.HeadRead | hex-executor-console-backend/src/safekeep/audit.ts:34-39 | the chain goes on from what the head file holds between white space, and begins at `genesis` without one or with a blank one |
| FileMove.CommitFileMoveAtomic | hex-executor-console-backend/src/fileMoveAtomic.ts:10-59 | success is a completed move on both branches, failure leaves the source alone and takes two faults, nothing but the two paths changes; a path moved onto itself stays, or with overwriting is deleted and the move fails; by a fault it may be reported moved and be deleted |
| FileMove.CopyVerifyUnlink | hex-executor-console-backend/src/fileMoveAtomic.ts:30-57 | the same for the fallback, even when copies cannot be trusted; with the source present it fails only by a fault; a file copied onto itself is deleted |
| FileMove.CopyVerified | hex-executor-console-backend/src/fileMoveAtomic.ts:38-50 | a copy that passes the hash and size check holds the source's bytes |
| FileMove.VerifiedCopyMoves | hex-executor-console-backend/src/fileMoveAtomic.ts:38-53 | a verified copy followed by the unlink of the source is a move |
| Snapshots.BackupNamesDistinct | hex-executor-console-backend/src/safekeep/backup.ts:53-57 | backup names of different items differ, whatever the files are called and however many there are |
| Snapshots.CopyItems | hex-executor-console-backend/src/safekeep/backup.ts:51-75 | the copies made so far stand under their own names with the recorded digests; only the safekeep area is written; with all originals present the loop stops early only by a fault |
| Snapshots.SealPasses | hex-executor-console-backend/src/safekeep/backup.ts:77-87 | the sealed manifest passes restore's integrity check |
| Snapshots.SealBinds | hex-executor-console-backend/src/restore.ts:128-146 | under one seal two manifests pass exactly when they agree in ids, digests, sizes, times and the texts of all paths |
| Snapshots.SealPins | hex-executor-console-backend/src/restore.ts:128-146 | a manifest with plain paths that passes under a seal is the only such one that does: it cannot be edited under it |
| Snapshots.RunBackupCow | hex-executor-console-backend/src/safekeep/backup.ts:19-103 | only the snapshot's directory is written; on success every planned item is backed up in order and intact under a stored, sealed manifest that carries the ids, command, intent and mutation kind given; with faithful copies, or without a fault, the backups hold the originals; it fails only by a fault if all originals are present |
| Snapshots.BackupChecksOut | hex-executor-console-backend/src/safekeep/backup.ts:77-102 | a successful backup passes integrity and item checks, and the search for a fresh id meets only it |
| Snapshots.BackupRestorable | hex-executor-console-backend/src/safekeep/backup.ts:51-102 | what a backup under a fresh id has made meets every check of restore |
| Snapshots.StaysRestorable | hex-executor-console-backend/src/restore.ts:100-175 | changes outside the safekeep area and audit entries leave a snapshot restorable |
| Snapshots.FindManifestPath | hex-executor-console-backend/src/restore.ts:32-59 | a path found is a manifest in a directory below the snapshots directory carrying the id asked for; a fault aside, one is found if there is one |
| Snapshots.OpenManifest | hex-executor-console-backend/src/restore.ts:86-146 | only audit files change; the manifest opened is one with the id whose seal passes, and a restorable one if there was one; what each refusal means; a refusal of a restorable id takes a fault; the audit entries made |
| Snapshots.RestoreItem | hex-executor-console-backend/src/restore.ts:151-214 | an item restored holds the recorded content; one whose backup does not check out is not written; an intact backup fails only by a fault |
| Snapshots.RestoreItems | hex-executor-console-backend/src/restore.ts:151-215 | the paths reported are the first ones and hold recorded contents; a restore that stops has touched nothing beyond the item it stopped at, and not even that one if its backup did not check out |
| Snapshots.RestoreByRestorePointId | hex-executor-console-backend/src/restore.ts:82-238 | before a manifest is accepted only audit files change; only a manifest whose seal passes is restored; afterwards the report is true of the disk; ok means every item restored and two audit entries made; the restore of an untouched snapshot fails only by a fault |
| Snapshots.FaithfulBackupRecords | hex-executor-console-backend/src/safekeep/backup.ts:59-60 | with faithful copies the manifest records the state the snapshot was taken in |
| Snapshots.RestoreReinstates | hex-executor-console-backend/src/restore.ts:148-238 | from any later state, a restore that reports all items puts each original back as it was at the snapshot |
| Snapshots.RecordsStateIff | hex-executor-console-backend/src/safekeep/backup.ts:59-60 | an intact backup records the state it was taken in exactly when each copy equals its original |
| Snapshots.RestoreReinstatesIff | hex-executor-console-backend/src/restore.ts:148-238 | a restore that reports all items puts the originals back exactly when each recorded digest is that of the original |
| Snapshots.CorruptBackupUndetected | hex-executor-console-backend/src/safekeep/backup.ts:59-60 | a wrong copy, in a state that meets the whole contract of a successful backup, passes seal and item check, and restore puts the wrong bytes in place |
| SnapshotHistory.BackupAtHome | hex-executor-console-backend/src/safekeep/backup.ts:37-40 | a snapshot under a fresh id lies in its own directory only |
| SnapshotHistory.OutlivesIff | hex-executor-console-backend/src/safekeep/backup.ts:37-91 | an earlier snapshot outlives a later successful backup exactly when that one went to another directory |
| SnapshotHistory.NextTakenIff | hex-executor-console-backend/src/safekeep/backup.ts:29-37 | for any deletions and any other entries, those that begin like snapshots included: the number counted to, and exactly when it is that of an existing directory |
| SnapshotHistory.SnapshotNameShape | hex-executor-console-backend/src/safekeep/backup.ts:37 | a snapshot is named by the prefix and its number in at least four digits |
| MovePlans.AcceptedPlansStand | hex-executor-console-backend/src/safekeep/plan.ts:27-132 | a plan is accepted exactly when paths, kinds, overwrite permission and caps stand, and lists the source and, if it exists, the destination |
| MovePlans.FirstFaultNamed | hex-executor-console-backend/src/safekeep/plan.ts:27-132 | a move is refused exactly when it has a fault, and for the first one in the order of the checks |
| MovePlans.RootsDecide | hex-executor-console-backend/src/policy.ts:131-154 | a forbidden root takes away exactly the paths below it; an allowed root adds those below it that no forbidden root covers; without one nothing is allowed |
| MovePlans.WorkflowPlan | hex-executor-console-backend/src/executeAction.ts:292-325 | a workflow's plan lists nothing and is refused exactly for the first path not allowed |
| MovePlans.BuildFileMovePlan | hex-executor-console-backend/src/safekeep/plan.ts:27-132 | the plan, or the first fault in the order of the checks, for the disk's present state |
| MovePlans.ValidatePaths | hex-executor-console-backend/src/safekeep/plan.ts:45-48 | passes exactly when every path is allowed, else names the first one denied |
| MovePlans.MakePlan | hex-executor-console-backend/src/executeAction.ts:292-325 | the plan of a command: that of the move, or an empty one if the paths checked are allowed |
| MovePlans.BuildPlanPreview | hex-executor-console-backend/src/planPreview.ts:19-200 | the preview carries the approval hash of the plan that execution will make for the present disk, and none for a refused, unplanned or non-mutating command |
| MovePlans.HashedPlan | hex-executor-console-backend/src/safekeep/pipeline.ts:78-87 | what the approval hash is taken of: planned and overwritten paths ascending, their number and bytes, the action, the workspace |
| MovePlans.AcceptedHashBinds | hex-executor-console-backend/src/safekeep/pipeline.ts:78-141 | with either byte cap below 2^32, accepted plans share a hash exactly when every canonical field, byte total included, agrees |
| MovePlans.TotalsBoundIffCapped | hex-executor-console-backend/src/safekeep/plan.ts:109-123 | for a policy that permits some move: accepted plans that share a hash share their byte total exactly when one of the byte caps is below 2^32 |
| MovePlans.TotalsSurviveIffCapped | hex-executor-console-backend/src/safekeep/plan.ts:109-123 | truncation spares every accepted plan exactly when one of the byte caps is below 2^31 |
| Pipeline.PreviewOpensGateIff | hex-executor-console-backend/src/safekeep/pipeline.ts:78-141 | a preview's hash opens the gate exactly when the plan made at execution is the previewed one up to path order and dropped bits |
| Pipeline.UnchangedPathsKeepApproval | hex-executor-console-backend/src/safekeep/pipeline.ts:78-141 | a previewed command passes the gate as long as the two paths of a move still look the same, whatever else changed |
| Pipeline.Gate | hex-executor-console-backend/src/safekeep/pipeline.ts:22-141 | opens exactly when preflight, plan and hash are good, without having written anything; otherwise only audit files changed; the stages reported and the audit entries made in every case |
| Pipeline.Backup | hex-executor-console-backend/src/safekeep/pipeline.ts:143-196 | skipped exactly for an empty plan, else a restorable snapshot of all planned paths, described as this command's, or a rejection; only the safekeep area is written |
| Pipeline.RunCommit | hex-executor-console-backend/src/safekeep/pipeline.ts:198-201 | COMMIT writes within its footprint; a successful file move is a move |
| Pipeline.CommitOrRollback | hex-executor-console-backend/src/safekeep/pipeline.ts:198-252 | a restore is tried exactly after a failed or thrown COMMIT with a snapshot; if it reports ok the user's files are back; the snapshot can still be restored afterwards; a failed move takes two faults and its failed rollback a third |
| Pipeline.BackupAndCommit | hex-executor-console-backend/src/safekeep/pipeline.ts:143-283 | COMMIT runs exactly after a backup that was not rejected; the user's files and the snapshot are kept; what has run ends with its own audit entry |
| Pipeline.LogOutcome | hex-executor-console-backend/src/safekeep/pipeline.ts:254-272 | the last audit entry is made and leaves the user's files and the snapshot alone |
| Pipeline.RestoredOwnSnapshot | hex-executor-console-backend/src/safekeep/pipeline.ts:205-209 | after a commit outside the safekeep area the only manifest the rollback can find is the pipeline's own |
| Pipeline.RollbackReinstates | hex-executor-console-backend/src/safekeep/pipeline.ts:248-252 | after an ok rollback every user path that existed holds its old bytes and only a created path of the commit can remain |
| Pipeline.RollbackStaysInside | hex-executor-console-backend/src/safekeep/pipeline.ts:248-252 | even a rollback that stops early writes planned paths only |
| Pipeline.RunMutationPipeline | hex-executor-console-backend/src/safekeep/pipeline.ts:11-283 | COMMIT runs exactly behind all gates and a complete backup; ok exactly for a commit that succeeded without an exception, which takes a fault; how far each run came and the audit entries it made; a committed move is a move and nothing else; the snapshot can be restored whatever COMMIT did; a failed commit leaves the user's files as they were but for a new destination, whenever the restore reports ok on faithful copies, and in any case for a move met by at most two faults, or without a fault for a move of a path onto itself; a move through open gates fails only by a fault |
| ToolBreaker.Breakers.Evaluate | hex-executor-console-backend/src/toolCircuitBreaker.ts:67-100 | the decision and the new bucket are those of the transition function; other buckets unchanged |
| ToolBreaker.Breakers.TransitionOpen | hex-executor-console-backend/src/toolCircuitBreaker.ts:59-64 | the bucket is open since now with the given reason |
| ToolBreaker.Breakers.RecordFailure | hex-executor-console-backend/src/toolCircuitBreaker.ts:102-117 | one more failure, tripping at the threshold or from half-open; other buckets unchanged |
| ToolBreaker.Breakers.RecordSuccess | hex-executor-console-backend/src/toolCircuitBreaker.ts:119-126 | the bucket is closed without failures and keeps its timestamps; also the manual reset |
| ToolBreaker.Breakers.RecordMutatingAttempt | hex-executor-console-backend/src/toolCircuitBreaker.ts:129-142 | the attempt is kept, older ones pruned, and the breaker trips over the limit |
| ToolBreaker.Breakers.AdmitMutating | hex-executor-console-backend/src/index.ts:184-212 | the handler's gate is the recorded attempt followed by the decision |
| ToolBreaker.Breakers.Snapshot | hex-executor-console-backend/src/toolCircuitBreaker.ts:178-203 | the reported retry time and count of the last minute |
| ToolBreaker.ReachableConsistent | hex-executor-console-backend/src/toolCircuitBreaker.ts:59-126 | in every reachable bucket: closed has no trip time and fewer failures than the threshold, open and half-open have a trip time, the probe time is set exactly in half-open |
| ToolBreaker.NoCallDuringCooldown | hex-executor-console-backend/src/toolCircuitBreaker.ts:79-88 | after a trip no call is allowed before the cooldown is over, whatever happens short of a success or reset |
| ToolBreaker.RetryAfterIsExact | hex-executor-console-backend/src/toolCircuitBreaker.ts:75-88 | a denial's retry time is exactly the remaining denial time; a denial without one lasts |
| ToolBreaker.CallEffect | hex-executor-console-backend/src/toolCircuitBreaker.ts:67-100 | when a call is let through in every reachable state, and that only the first one let through changes the bucket |
| ToolBreaker.SnapshotRetryExactIff | hex-executor-console-backend/src/toolCircuitBreaker.ts:183-187 | a snapshot reports a time to wait exactly for an open breaker, zero included, and it is exact exactly when the breaker is not held manually |
| ToolBreaker.MisreportsIff | hex-executor-console-backend/src/toolCircuitBreaker.ts:178-203 | some timed run of the limiter ends held with a positive time reported exactly where manual resets are required, the threshold is at least two and the cooldown is positive |
| ToolBreaker.TripsAtThreshold | hex-executor-console-backend/src/toolCircuitBreaker.ts:102-117 | failures in a row, at any times and for any reasons, open a closed breaker exactly at the threshold, since the last of them |
| ToolBreaker.SuccessForgets | hex-executor-console-backend/src/toolCircuitBreaker.ts:119-126 | after a success or a reset in whatever state the breaker is as new but for the rate window, and opens after exactly as many failures in a row as the threshold |
| ToolBreaker.FailuresCounted | hex-executor-console-backend/src/toolCircuitBreaker.ts:102-126 | on every run the failures counted are those since the last success or reset |
| ToolBreaker.ReasonTells | hex-executor-console-backend/src/toolCircuitBreaker.ts:102-117 | the reason kept after a failure on any run, and the count it names |
| ToolBreaker.OpenedSince | hex-executor-console-backend/src/toolCircuitBreaker.ts:59-142 | on every run the cooldown runs from the last request beyond the limit, failed probe or failure at the threshold, and the breaker is closed exactly without one since the last success or reset |
| ToolBreaker.OutcomesDecide | hex-executor-console-backend/src/toolCircuitBreaker.ts:102-126 | while no call is decided the breaker is open exactly when as many failures as the threshold came since the last success or reset |
| ToolBreaker.DefaultsInEffect | hex-executor-console-backend/src/toolCircuitBreaker.ts:44-57 | the threshold and cooldown at work are those configured for the key, else five failures (the limiter: `maxConsecutiveFailures`) and a minute; a manual hold has to be configured |
| ToolBreaker.ProbeDecides | hex-executor-console-backend/src/toolCircuitBreaker.ts:109-126 | a failed probe denies for exactly one more cooldown, a successful one closes; neither touches the window |
| ToolBreaker.HalfOpenAdmitsEveryCall | hex-executor-console-backend/src/toolCircuitBreaker.ts:95-97 | half-open lets every call through until an outcome is recorded |
| ToolBreaker.CallsAfterTrip | hex-executor-console-backend/src/toolCircuitBreaker.ts:75-142 | after a trip and before an outcome the calls let through are exactly those decided when the cooldown since the last trip is over, a request beyond the rate limit being a trip anew; under a manual hold none |
| ToolBreaker.FirstTripCounts | hex-executor-console-backend/src/toolCircuitBreaker.ts:79-88 | without a request beyond the rate limit it is the cooldown of the trip found that counts |
| ToolBreaker.SingleProbeIff | hex-executor-console-backend/src/toolCircuitBreaker.ts:66-97 | at most one probe is let through exactly when at most one call comes after the cooldown since the last trip |
| ToolBreaker.HoldSurvivesIff | hex-executor-console-backend/src/toolCircuitBreaker.ts:75-142 | what a hold for a manual reset survives: a call within the rate limit, and a failure short of the threshold whose reason begins with MANUAL |
| ToolBreaker.StepTimestamps | hex-executor-console-backend/src/toolCircuitBreaker.ts:129-133 | nothing but an attempt changes the timestamps, in particular no success and no reset |
| ToolBreaker.TimestampsKeepTheWindow | hex-executor-console-backend/src/toolCircuitBreaker.ts:129-133 | the kept timestamps are all the attempts of the last 60 seconds, admitted or not |
| ToolBreaker.SnapshotCounts | hex-executor-console-backend/src/toolCircuitBreaker.ts:188-192 | the number a snapshot of the limiter shows is that of the attempts of the last 60 seconds |
| ToolBreaker.OverLimitDenied | hex-executor-console-backend/src/toolCircuitBreaker.ts:134-141 | an attempt over the limit is denied at once |
| ToolBreaker.ClosedAdmitsIff | hex-executor-console-backend/src/toolCircuitBreaker.ts:129-156 | a closed breaker admits a request exactly when the window is within the limit |
| ToolBreaker.RateBound | hex-executor-console-backend/src/index.ts:184-225 | no half-open window of 60 seconds holds more admitted mutating commands than the limit, for every interleaving of requests, outcomes and resets |
| ToolBreaker.BurstAdmitted | hex-executor-console-backend/src/toolCircuitBreaker.ts:79-92 | without a positive cooldown any number of simultaneous requests is admitted |
| ToolBreaker.RateBoundedIffCooldown | hex-executor-console-backend/src/toolCircuitBreaker.ts:119-156 | the rate is bounded on every run exactly when the cooldown is positive |
| JobQueue.JobTable.Enqueue | agent/executor_queue.py:101-123 | one queued row is added |
| JobQueue.JobTable.SelectEarliest | agent/executor_queue.py:131-139 | an earliest-created due row, or none exactly when none is due |
| JobQueue.JobTable.FetchNext | agent/executor_queue.py:126-158 | claims an earliest-created due row for the worker and changes nothing else; none exactly when none is due |
| JobQueue.JobTable.MarkDone | agent/executor_queue.py:161-177 | the row succeeds and is released |
| JobQueue.JobTable.ReadAttempts | agent/executor_queue.py:189-193 | the attempts and limit of the row, if it exists |
| JobQueue.JobTable.WriteFailure | agent/executor_queue.py:192-217 | the row is rescheduled with its pause or fails for good, from the values read |
| JobQueue.SomeEarliest | agent/executor_queue.py:133-139 | whenever a row is due an earliest one exists, so the claiming SELECT is never empty-handed |
| WorkerPool.WorkerTurn | agent/executor_worker.py:55-96 | an undisturbed turn marks the claimed job done exactly when it reports success and approval, else failed |
| WorkerPool.StepKeepsInv | agent/executor_worker.py:55-96 | every step of every worker keeps the ownership and counting invariant |
| WorkerPool.QueueSafety | agent/executor_worker.py:55-96 | in every interleaving: a running job has exactly one holder, attempts are the failed executions, claims stay within the limit, a failed job used up every execution, and a job not running has no worker and a retry time exactly if it is to be retried |
| WorkerPool.TermsOnRun | agent/executor_queue.py:101-217 | on every run each row keeps the limit and the creation time of the enqueue that made it |
| WorkerPool.JobsAreEnqueues | agent/executor_queue.py:101-217 | from the events alone: job i is the i-th enqueue, is claimed at most as often as that allows, and has failed for good exactly when all those executions have failed and no mark is pending |
| WorkerPool.ClaimsEarliest | agent/executor_queue.py:131-139 | on every run a job claimed is one enqueued no later than any other that is due |
| WorkerPool.LimitKeptIff | agent/executor_queue.py:101-217 | claims stay within the `max_attempts` given at the enqueue, on every run, exactly when that is at least one |
| WorkerPool.TerminalIsFinal | agent/executor_queue.py:133-137 | a finished job is never claimed or changed again |
| WorkerPool.NoLostUpdate | agent/executor_queue.py:189-217 | the values read before a failure mark are still current when it is written |
| WorkerPool.UnclaimedStays | agent/executor_queue.py:133-158 | on every run a job that is not running changes only by being claimed |
| WorkerPool.RetryWaits | agent/executor_queue.py:194-207 | after its failure is marked, and through any events but a claim of it, a job is due exactly when it is not given up and its pause of 60, 300 or 900 seconds since the mark is over; so no later claim of it comes earlier |
| WorkerPool.StepLowersMeasure | agent/executor_queue.py:192-217 | every claim and mark lowers the measure of remaining work |
| WorkerPool.TransitionsCounted | agent/executor_queue.py:126-217 | along any run the claims and marks are paid for by that measure |
| WorkerPool.BoundedWork | agent/executor_queue.py:126-217 | any run has at most twice as many claims and marks as the executions its jobs are allowed |
| WorkerPool.NotStuck | agent/executor_worker.py:55-96 | while a job is unfinished some worker can move |
| WorkerPool.DrainedStep | agent/executor_worker.py:139-150 | an empty queue stays empty without new jobs |
| WorkerPool.StableMeansDrained | agent/executor_worker.py:135-150 | a positive poll count means every job is finished |
| WorkerPool.StableIsStreak | agent/executor_worker.py:135-150 | the poll count is the number of polls in a row that found every job finished |
| WorkerPool.NeedIs | agent/executor_worker.py:132 | the count needed is the grace period in whole poll intervals |
| WorkerPool.StopsAfterStreakIff | agent/executor_worker.py:132-151 | the pool stops exactly after as many such polls in a row as the grace period has whole intervals |
| WorkerPool.PoolStopsOnlyDrainedIff | agent/executor_worker.py:132-151 | the pool never stops before the last job exactly when the grace period is at least 0.25 s |
| Workflow.AskHook | hex-executor-console-backend/src/workflow/executor.ts:125-142 | the hook's answer either ends the run or adds exactly its entries |
| Workflow.RunStep | hex-executor-console-backend/src/workflow/executor.ts:81-143 | one step: failures 1..k that handler and hook let it retry, each followed by what the hook injected, then success k + 1 or the failure it ended with; calls of handler and hook counted |
| Workflow.SkippedIff | hex-executor-console-backend/src/workflow/executor.ts:81 | a step is passed over exactly when it allows no attempt |
| Workflow.StepDetermined | hex-executor-console-backend/src/workflow/executor.ts:81-143 | handler and hook determine how a step ends and after how many failures |
| Workflow.OwnPassed | hex-executor-console-backend/src/workflow/executor.ts:84-141 | leaving out the injected entries, a finished step's trace is its failures numbered 1..k and then its success k + 1; the injected ones are the hook's answers to its failures, in order |
| Workflow.BlockReads | hex-executor-console-backend/src/workflow/executor.ts:84-101 | the attempts of a finished step are numbered 1 to k + 1, carry the step's id and what the handler said, and only the last is ok |
| Workflow.AnswersFollow | hex-executor-console-backend/src/workflow/executor.ts:125-142 | at every point of the retries the failures up to then and the answers to them are in the trace |
| Workflow.OwnTraceIsBlocks | hex-executor-console-backend/src/workflow/executor.ts:67-144 | leaving out the injected entries, the trace of the finished steps is those blocks, one after the other |
| Workflow.CallsAreEntries | hex-executor-console-backend/src/workflow/executor.ts:67-144 | the finished steps have one own entry for each handler call |
| Workflow.OwnRun | hex-executor-console-backend/src/workflow/executor.ts:67-144 | leaving out the injected entries, a run that stopped at a step adds the blocks of the finished steps and then that step's failures |
| Workflow.RunWorkflowPlan | hex-executor-console-backend/src/workflow/executor.ts:56-153 | the trace is that of each finished step in order and then of the step it stopped at; success means all steps finished; handler calls stay within the sum of the retry limits however it ends; when a handler is missing and when the fall-through is reached |
| PolicyMerge.DeepMerge | agent/executor_schema.py:18-25 | the loop computes the recursive merge |
| PolicyMerge.MergeAt | agent/executor_schema.py:18-25 | the merged value at any path of keys, from the two values there |
| PolicyMerge.OverlayWins | agent/executor_schema.py:18-25 | at every path, from the two values alone: what the overlay gives wins unless both give dictionaries, which are united key by key; where it is silent the base shows through |
| PolicyMerge.MergeSelf | agent/executor_country.py:50-57 | merging a value with itself changes nothing |
| PolicyMerge.MergeAbsorbs | agent/executor_schema.py:18-25 | merging onto the same defaults twice is merging once |
| PolicyMerge.NormalizeBlocks | agent/executor_schema.py:109-163 | keys are the union; each policy block ends as its default under what the configuration and payload give; other keys are as merged |
| PolicyMerge.DefaultBackedBlock | agent/executor_schema.py:152-163 | a default-backed block is the default merged with the operator's block, or the default; normalising again changes nothing |
| PolicyMerge.ScreenshotBlockStableIff | agent/executor_schema.py:103-163 | the exact condition under which normalising the screenshot block again changes nothing |
| StageEngine.CallStage | agent/local_executor.py:574-1053 | a stage call writes its running status, its failure over it if it does not pass, and its part of the report |
| StageEngine.CanFailIff | agent/local_executor.py:574-1053 | which stages can fail at all, by platform, dry run and screenshot settings |
| StageEngine.ToolDecides | agent/local_executor.py:574-1053 | where a stage can fail its tool decides; a comparison that does not record also fails on a difference |
| StageEngine.RetryByClass | agent/executor_failure.py:12-22 | after which failure classes a stage is called again: any transient one, a structural one up to the cap, with the default cap never |
| StageEngine.RunStageWithRetry | agent/local_executor.py:1056-1103 | at most the limit of calls, each failure analysed once, a call after a failure only if its class allows, recipes after transient failures only; status and report are left as by the last call, so no earlier failure outlives a pass |
| StageEngine.CallsUpToLimit | agent/local_executor.py:1064-1082 | no stage is called more often than its limit, and one whose calls all fail for transient reasons is called exactly as often |
| StageEngine.RecipesRepeat | agent/local_executor.py:1075-1080 | the recipes applied are all of them, in order, once for each transient failure |
| StageEngine.UncalledIff | agent/local_executor.py:1064-1066 | a stage is never called exactly when its limit is below one |
| StageEngine.RunUnique | agent/local_executor.py:1066-1082 | that contract leaves no freedom: the stage outcomes and failure classes determine the run |
| StageVerdict.ValidateExecutorRun | agent/local_validator.py:128-175 | the issues raised are exactly those that hold |
| StageVerdict.EvaluateGate | agent/local_gatekeeper.py:14-42 | each reason is given exactly when it holds, and approval exactly without one |
| StageVerdict.NoIssueMeansEvidence | agent/local_validator.py:141-175 | after a success no missing evidence is waived |
| StageVerdict.WaivedIff | agent/local_validator.py:141-175 | which issues a run that failed at a stage is not blamed for |
| StageVerdict.NextStage | agent/local_executor.py:1326-1341 | the next retried stage runs as its contract says; status and report are those of its last call, or the ones before it if it was not called |
| StageVerdict.EarlyStages | agent/local_executor.py:1306-1325 | the stages called once, with the status and the files each leaves |
| StageVerdict.Finish | agent/local_executor.py:1227-1273 | every status that is not a failure becomes success; complete evidence is the same as approval, which is success with all the evidence demanded |
| StageVerdict.RunLocalExecutor | agent/local_executor.py:1276-1345 | the retried stages run in order while they pass, each as its contract says; status and evidence are what those runs leave, and approval is success with all the evidence demanded |
| StageVerdict.EvidenceTells | agent/local_executor.py:574-1053 | for all runs of the stages: build, test and smoke success in the report are those of the stage runs; the screenshot result is that of its last call; every other field is as the skeleton has it |
| StageVerdict.EarlyEnd | agent/local_executor.py:1309-1325 | where a run whose first stages did not all pass is reported to have failed, and the files it has then |
| StageVerdict.RunsByPolicy | agent/local_executor.py:1056-1103 | which stage comes when, which entry of the policy limits it, and which recipes are applied for it |
| StageVerdict.SuccessIff | agent/local_executor.py:1253-1273 | success is reported exactly when all stages passed or the last one begun was never called; a failure names the last retried stage |
| StageVerdict.SuccessMeansPassedIff | agent/local_executor.py:1064-1066 | SUCCEEDED means that every stage passed, in every outcome, exactly when all four limits are at least one |
| StageVerdict.UncalledApproved | agent/local_gatekeeper.py:14-42 | a run that stopped at an uncalled stage is approved only if the gate asks for nothing that this stage or a later one leaves, and then it is if no screenshot differs |
| StageVerdict.ApprovalMeansPassedIff | agent/local_gatekeeper.py:14-42 | APPROVED means that every stage passed, in every outcome, exactly when the gate is not blind from the first uncalled stage on |
| StageVerdict.PassedApprovedIff | agent/local_validator.py:141-175 | once all stages passed, build, test and smoke cannot be held against the run: the exact condition on the screenshots under which it is approved |
| StageVerdict.ApprovableIff | agent/local_validator.py:149-163 | when any run of a setup under a policy can be approved at all |
| CountryOrder.PresentMembers | agent/executor_country.py:85-91 | the first part holds exactly the G20 members present, each once |
| CountryOrder.PresentInOrder | agent/executor_country.py:85-91 | the G20 members present come in the order of their list |
| CountryOrder.SortKeeps | agent/executor_country.py:92 | sorting distinct codes gives the same codes strictly ascending |
| CountryOrder.OrderDetermined | agent/executor_country.py:72-93 | one sequence answers to the promised order, and it holds each code of the table exactly once |
| CountryOrder.BuildG20ThenIso | agent/executor_country.py:72-93 | G20 members present in their order, then every other code strictly ascending |
| CountryOrder.ResolveBatch | agent/executor_country.py:112-127 | any limit yields the prefix of that length |

## Left out

- Json.PrintInjective: numbers are integers within the range in which the host prints them exactly; fractions and exponents are not modelled. Symbols and functions do not occur as values.
- AuditChain.VerifyChainLines: takes the lines as the JSON parser reads them; splitting the file into lines is not modelled.
- AuditChain.AuditStore.AppendAudit: concurrent appends, and an append that leaves part of a line, are not modelled.
- SnapshotHistory.NextTakenIff: two backups of one day at the same time; a day's directory that cannot be read counts as empty, so that the next number is 1.
- FileMove.CommitFileMoveAtomic: copying a file onto itself is copying over it; a faulty copy may leave anything there, as anywhere.
- Snapshots.RestoreReinstatesIff: supposes distinct originals; a path listed twice holds what was recorded for one of its items.
- Pipeline.CommitOrRollback: the safety of a rollback supposes a backup that recorded the state it was taken in.
- Snapshots.SealPins: plain paths are those whose components hold no separator; without that a seal binds the texts of the paths only.
- Snapshots.FindManifestPath: the directory walk is any choice among the matching manifests, or none; its order is not modelled.
- Snapshots.RunBackupCow: the date, sequence number and UUID are parameters; creating directories appears only as a possible failure.
- Pipeline.RunMutationPipeline: what it says of the user's files supposes that the paths of the command lie outside `.neo-safekeep` and that the new restore point id, eight digits of a UUID, is not yet taken; no other process writes meanwhile. Workflows with a nonempty footprint have an empty plan, so nothing is claimed about undoing them; policy loading and the preflight's own rules are parameters; a policy that fails to load is not modelled.
- MovePlans.BuildFileMovePlan: `stat` reports what is there and fails only on absent paths; path resolution, drive letters, case folding and symbolic links are replaced by normalised paths.
- MovePlans.BuildPlanPreview: the summary and the other texts of a preview; which intent a command has.
- ToolBreaker.RateBound: needs a clock that does not run backwards and less than a cooldown between recording an attempt and deciding on it.
- WorkerPool.QueueSafety: rows are named by position and times are seconds; database errors, process crashes and stale-running recovery (a stub) are not modelled, so nothing is claimed under crashes.
- WorkerPool.BoundedWork: counts claims and marks; idle polls of the workers are unbounded.
- Snapshots.RestoreByRestorePointId: counts as a fault every failure that is not for want of a file, a missing directory or an unreadable log among them.
- Workflow.RunWorkflowPlan: a handler or hook that edits the trace by itself, and the result fields merged into the return value, are not modelled.
- StageVerdict.RunLocalExecutor: the tools behind the stages and the failure classifier's text matching are arbitrary functions of the call number; platforms are the three the stages tell apart; exceptions out of a stage, and the logs and the rest of the report, are not modelled.
- CountryOrder.ResolveBatch: reading the table file and single-country runs.
- `probeSuccessesRequired` is read from the policy but never used by the code, so it does not appear.
- `enqueue_batch_jobs`, `getAllToolBreakerSnapshots` and the banner messages: loops over modelled operations that would only add easy members.
- Emulator, ADB, Gradle and language-model calls, keyword classifiers, schema validation by libraries, report writers, the console and the HTTP plumbing.
