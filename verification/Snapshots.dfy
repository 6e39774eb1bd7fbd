/** Copy-on-write snapshots and restore: hex-executor-console-backend/src/safekeep/backup.ts and
    hex-executor-console-backend/src/restore.ts.
 */
module Snapshots {
  import opened Texts
  import opened Common
  import opened Disks
  import Json

  // ----- The safekeep area -----

  const SAFEKEEP := Lit(".neo-safekeep")
  const SNAPSHOTS := Lit("snapshots")
  const AUDIT := Lit("audit")
  const FILES := Lit("files")
  const MANIFEST := Lit("manifest.json")

  predicate Under(p: Path, root: seq<Text>) {
    root <= p.parts
  }

  predicate InSafekeep(ws: Path, p: Path) {
    Under(p, ws.parts + [SAFEKEEP])
  }

  predicate InAudit(ws: Path, p: Path) {
    Under(p, ws.parts + [SAFEKEEP, AUDIT])
  }

  function BaseName(p: Path): Text {
    if p.parts == [] then [] else p.parts[|p.parts| - 1]
  }

  /** A place where the search for a restore point looks: in a directory, at any depth, below the
      snapshots directory, but not in that directory itself. */
  predicate IsManifestPath(ws: Path, p: Path) {
    Under(p, ws.parts + [SAFEKEEP, SNAPSHOTS]) && |p.parts| >= |ws.parts| + 4 && BaseName(p) == MANIFEST
  }

  function SnapshotDir(ws: Path, ymd: Text, snapshotId: Text): Path {
    Path(ws.parts + [SAFEKEEP, SNAPSHOTS, ymd, snapshotId])
  }

  function ManifestPath(dir: Path): Path {
    Path(dir.parts + [MANIFEST])
  }

  const UNDERSCORE: CodeUnit := '_' as int

  /** The index-prefixed backup name of item `i`. */
  function BackupName(i: nat, base: Text): Text {
    Padded(i, 3) + [UNDERSCORE, UNDERSCORE] + base
  }

  function BackupPath(dir: Path, i: nat, original: Path): Path {
    Path(dir.parts + [FILES, BackupName(i, BaseName(original))])
  }

  /** Backup names of different items differ, whatever the files are called. */
  lemma BackupNamesDistinct(i: nat, a: Text, j: nat, b: Text)
    requires BackupName(i, a) == BackupName(j, b)
    ensures i == j && a == b
  {
    PaddedNumeral(i, 3);
    PaddedNumeral(j, 3);
    var ra, rb := [UNDERSCORE, UNDERSCORE] + a, [UNDERSCORE, UNDERSCORE] + b;
    assert BackupName(i, a) == Padded(i, 3) + ra && BackupName(j, b) == Padded(j, 3) + rb;
    RunSplitsUniquely(Digit, Padded(i, 3), ra, Padded(j, 3), rb);
    assert ra[2..] == a && rb[2..] == b;
  }

  lemma BackupPathsDistinct(dir: Path, i: nat, p: Path, j: nat, q: Path)
    requires i != j
    ensures BackupPath(dir, i, p) != BackupPath(dir, j, q)
  {
    if BackupPath(dir, i, p) == BackupPath(dir, j, q) {
      assert BaseName(BackupPath(dir, i, p)) == BackupName(i, BaseName(p));
      assert BaseName(BackupPath(dir, j, q)) == BackupName(j, BaseName(q));
      BackupNamesDistinct(i, BaseName(p), j, BaseName(q));
    }
  }

  lemma BackupIsNoManifest(ws: Path, ymd: Text, snapshotId: Text, i: nat, p: Path)
    ensures var b := BackupPath(SnapshotDir(ws, ymd, snapshotId), i, p);
            InSafekeep(ws, b) && !IsManifestPath(ws, b) && !InAudit(ws, b)
  {
    var b := BackupPath(SnapshotDir(ws, ymd, snapshotId), i, p);
    PaddedNumeral(i, 3);
    var name := BackupName(i, BaseName(p));
    assert BaseName(b) == name;
    assert Padded(i, 3) != [] by { PaddedNonEmpty(Digits(i), 3); }
    assert name[0] == Padded(i, 3)[0] && MANIFEST[0] == 'm' as int;
    AreaOf(ws, b, SNAPSHOTS, [ymd, snapshotId, FILES, name]);
  }

  lemma {:induction false} PaddedNonEmpty(t: Text, width: nat)
    requires t != []
    ensures PadTo(t, width) != []
    decreases width - |t|
  {
    if |t| < width {
      PaddedNonEmpty(['0' as int] + t, width);
    }
  }

  /** A path below a directory of the safekeep area is in that directory's area only. */
  lemma AreaOf(ws: Path, p: Path, area: Text, below: seq<Text>)
    requires p.parts == ws.parts + ([SAFEKEEP, area] + below)
    ensures InSafekeep(ws, p)
    ensures Under(p, ws.parts + [SAFEKEEP, area])
    ensures InAudit(ws, p) <==> area == AUDIT
    ensures Under(p, ws.parts + [SAFEKEEP, SNAPSHOTS]) <==> area == SNAPSHOTS
  {
    var n := |ws.parts|;
    assert p.parts[n] == SAFEKEEP && p.parts[n + 1] == area;
    assert (ws.parts + [SAFEKEEP, AUDIT])[n + 1] == AUDIT;
    assert (ws.parts + [SAFEKEEP, SNAPSHOTS])[n + 1] == SNAPSHOTS;
    assert p.parts[..n + 1] == ws.parts + [SAFEKEEP];
    assert p.parts[..n + 2] == ws.parts + [SAFEKEEP, area];
  }

  lemma AreasApart(ws: Path, p: Path)
    ensures InAudit(ws, p) ==> InSafekeep(ws, p) && !IsManifestPath(ws, p)
  {
    if InAudit(ws, p) {
      var below := p.parts[|ws.parts| + 2..];
      assert p.parts == ws.parts + ([SAFEKEEP, AUDIT] + below);
      AreaOf(ws, p, AUDIT, below);
      assert |AUDIT| != |SNAPSHOTS|;
    }
  }

  lemma ManifestPathIs(ws: Path, ymd: Text, snapshotId: Text)
    ensures var p := ManifestPath(SnapshotDir(ws, ymd, snapshotId));
            InSafekeep(ws, p) && IsManifestPath(ws, p) && !InAudit(ws, p)
  {
    var p := ManifestPath(SnapshotDir(ws, ymd, snapshotId));
    assert BaseName(p) == MANIFEST;
    AreaOf(ws, p, SNAPSHOTS, [ymd, snapshotId, MANIFEST]);
    assert |AUDIT| != |SNAPSHOTS|;
  }

  // ----- Audit entries, as far as the file system goes -----

  ghost predicate OnlyAudit(ws: Path, a: Files, b: Files) {
    forall p {:trigger p in a} {:trigger p in b} {:trigger AgreeAt(a, b, p)} :: !InAudit(ws, p) ==> AgreeAt(a, b, p)
  }

  /** Appending an audit entry writes the day log and then the chain head; it may throw, before the
      entry is there or after. */
  method AppendAudit(disk: Disk, ws: Path, logName: Text) returns (ok: bool)
    modifies disk
    ensures OnlyAudit(ws, old(disk.files), disk.files)
    ensures disk.faults <= old(disk.faults) && (!ok ==> disk.faults < old(disk.faults))
    ensures old(disk.audited) <= disk.audited <= old(disk.audited) + 1 && (ok ==> disk.audited == old(disk.audited) + 1)
  {
    var log := Path(ws.parts + [SAFEKEEP, AUDIT, logName]);
    var head := Path(ws.parts + [SAFEKEEP, AUDIT, Lit(".chain-head")]);
    AreaOf(ws, log, AUDIT, [logName]);
    AreaOf(ws, head, AUDIT, [Lit(".chain-head")]);
    var entry: Content, hash: Content := *, *;
    ok := disk.WriteFile(log, entry);
    if ok {
      disk.audited := disk.audited + 1;
      ok := disk.WriteFile(head, hash);
    }
  }

  // ----- Manifests -----

  function PathText(p: Path): Text {
    Joined(p.parts)
  }

  function Joined(parts: seq<Text>): Text {
    if parts == [] then [] else ['/' as int] + parts[0] + Joined(parts[1..])
  }

  predicate NotSlash(u: CodeUnit) { u != '/' as int }

  /** No component holds the separator. */
  ghost predicate Plain(p: Path) {
    forall i :: 0 <= i < |p.parts| ==> AllOf(NotSlash, p.parts[i])
  }

  /** The text of a path names it. */
  lemma {:induction false} PathTextUnique(p: Path, q: Path)
    requires Plain(p) && Plain(q) && PathText(p) == PathText(q)
    ensures p == q
    decreases |p.parts|
  {
    if p.parts != [] && q.parts != [] {
      var a, b := p.parts[1..], q.parts[1..];
      var s, t := p.parts[0] + Joined(a), q.parts[0] + Joined(b);
      assert Joined(p.parts) == ['/' as int] + s && Joined(q.parts) == ['/' as int] + t;
      assert s == Joined(p.parts)[1..] && t == Joined(q.parts)[1..];
      RunSplitsUniquely(NotSlash, p.parts[0], Joined(a), q.parts[0], Joined(b));
      PathTextUnique(Path(a), Path(b));
      assert p.parts == [p.parts[0]] + a && q.parts == [q.parts[0]] + b;
    }
  }

  function ItemJson(it: ManifestItem): Json.Value {
    Json.Obj([
      Json.Field(Lit("originalPath"), Json.Str(PathText(it.originalPath))),
      Json.Field(Lit("backupPath"), Json.Str(PathText(it.backupPath))),
      Json.Field(Lit("sha256"), Json.Str(it.sha256)),
      Json.Field(Lit("size"), Json.Num(it.size)),
      Json.Field(Lit("mtimeMs"), Json.Num(it.mtimeMs)),
      Json.Field(Lit("existsBefore"), Json.Bool(it.existsBefore))])
  }

  /** The manifest without its seal. */
  function DraftJson(m: Manifest): Json.Value {
    Json.Obj([
      Json.Field(Lit("restorePointId"), Json.Str(m.restorePointId)),
      Json.Field(Lit("snapshotId"), Json.Str(m.snapshotId)),
      Json.Field(Lit("commandId"), Json.Str(m.commandId)),
      Json.Field(Lit("createdAt"), Json.Str(m.createdAt)),
      Json.Field(Lit("intent"), Json.Str(m.intent)),
      Json.Field(Lit("mutationKind"), Json.Str(m.mutationKind)),
      Json.Field(Lit("items"), Json.Arr(ItemsJson(m.items)))])
  }

  function ItemsJson(items: seq<ManifestItem>): (vs: seq<Json.Value>)
    ensures |vs| == |items| && forall i :: 0 <= i < |items| ==> vs[i] == ItemJson(items[i])
  {
    seq(|items|, i requires 0 <= i < |items| => ItemJson(items[i]))
  }

  /** The manifest without its seal, as it is serialised for hashing. */
  function DraftText(m: Manifest): Text {
    Json.Print(DraftJson(m))
  }

  /** Two items agree in everything, in their paths as far as the text of a path tells. */
  ghost predicate SameItem(a: ManifestItem, b: ManifestItem) {
    && PathText(a.originalPath) == PathText(b.originalPath) && PathText(a.backupPath) == PathText(b.backupPath)
    && a.sha256 == b.sha256 && a.size == b.size && a.mtimeMs == b.mtimeMs && a.existsBefore == b.existsBefore
  }

  ghost predicate SameDraft(m: Manifest, n: Manifest) {
    && m.restorePointId == n.restorePointId && m.snapshotId == n.snapshotId && m.commandId == n.commandId
    && m.createdAt == n.createdAt && m.intent == n.intent && m.mutationKind == n.mutationKind
    && |m.items| == |n.items| && forall i :: 0 <= i < |m.items| ==> SameItem(m.items[i], n.items[i])
  }

  lemma ItemJsonBinds(a: ManifestItem, b: ManifestItem)
    ensures ItemJson(a) == ItemJson(b) <==> SameItem(a, b)
    ensures Json.Defined(ItemJson(a))
  {
    var v, w := ItemJson(a).fields, ItemJson(b).fields;
    if ItemJson(a) == ItemJson(b) {
      assert v[0] == w[0] && v[1] == w[1] && v[2] == w[2] && v[3] == w[3] && v[4] == w[4] && v[5] == w[5];
    }
  }

  lemma ItemsJsonBinds(a: seq<ManifestItem>, b: seq<ManifestItem>)
    ensures ItemsJson(a) == ItemsJson(b) <==> |a| == |b| && forall i :: 0 <= i < |a| ==> SameItem(a[i], b[i])
    ensures Json.Defined(Json.Arr(ItemsJson(a)))
  {
    var v, w := ItemsJson(a), ItemsJson(b);
    forall i | 0 <= i < |a|
      ensures Json.Defined(v[i])
    {
      ItemJsonBinds(a[i], a[i]);
    }
    if |a| == |b| {
      forall i | 0 <= i < |a|
        ensures v[i] == w[i] <==> SameItem(a[i], b[i])
      {
        ItemJsonBinds(a[i], b[i]);
      }
      assert v == w <==> forall i :: 0 <= i < |a| ==> v[i] == w[i];
    }
  }

  lemma DraftJsonBinds(m: Manifest, n: Manifest)
    ensures DraftJson(m) == DraftJson(n) <==> SameDraft(m, n)
    ensures Json.Defined(DraftJson(m))
  {
    var v, w := DraftJson(m).fields, DraftJson(n).fields;
    ItemsJsonBinds(m.items, n.items);
    if DraftJson(m) == DraftJson(n) {
      assert v[0] == w[0] && v[1] == w[1] && v[2] == w[2] && v[3] == w[3] && v[4] == w[4] && v[5] == w[5] && v[6] == w[6];
    }
  }

  /** What a seal binds: two manifests that carry it and pass agree in ids, digests, sizes and times
      and in the texts of all paths, item by item; and only such two can share it. */
  lemma SealBinds(h: Text -> Text, m: Manifest, n: Manifest)
    requires Ideal(h) && m.integritySha256.Some? && m.integritySha256.value != []
    requires n.integritySha256 == m.integritySha256 && IntegrityOk(h, m)
    ensures IntegrityOk(h, n) <==> SameDraft(m, n)
  {
    DraftJsonBinds(m, n);
    DraftJsonBinds(n, m);
    Json.PrintInjective(DraftJson(m), DraftJson(n));
  }

  /** A manifest without a seal passes. */
  predicate IntegrityOk(h: Text -> Text, m: Manifest) {
    m.integritySha256.None? || m.integritySha256.value == [] || m.integritySha256.value == h(DraftText(m))
  }

  ghost predicate PlainPaths(m: Manifest) {
    forall i :: 0 <= i < |m.items| ==> Plain(m.items[i].originalPath) && Plain(m.items[i].backupPath)
  }

  /** So a sealed manifest cannot be edited under its seal. */
  lemma SealPins(h: Text -> Text, m: Manifest, n: Manifest)
    requires Ideal(h) && m.integritySha256.Some? && m.integritySha256.value != []
    requires n.integritySha256 == m.integritySha256 && IntegrityOk(h, m) && PlainPaths(m) && PlainPaths(n)
    ensures IntegrityOk(h, n) <==> n == m
  {
    SealBinds(h, m, n);
    if SameDraft(m, n) {
      forall i | 0 <= i < |m.items|
        ensures m.items[i] == n.items[i]
      {
        assert SameItem(m.items[i], n.items[i]);
        PathTextUnique(m.items[i].originalPath, n.items[i].originalPath);
        PathTextUnique(m.items[i].backupPath, n.items[i].backupPath);
      }
      assert m.items == n.items;
    }
  }

  function Originals(m: Manifest): seq<Path> {
    seq(|m.items|, i requires 0 <= i < |m.items| => m.items[i].originalPath)
  }

  /** Every backup is there and has the digest the manifest records. */
  ghost predicate BackupsIntact(files: Files, sha: Content -> Text, m: Manifest) {
    forall i :: 0 <= i < |m.items| ==> BackupIntact(files, sha, m.items[i])
  }

  predicate BackupIntact(files: Files, sha: Content -> Text, it: ManifestItem) {
    it.backupPath in files && sha(files[it.backupPath]) == it.sha256
  }

  // ----- Backup -----

  datatype PlanItem = PlanItem(originalPath: Path, existsBefore: bool, size: nat, mtimeMs: int)

  function PlannedPaths(items: seq<PlanItem>): seq<Path> {
    seq(|items|, i requires 0 <= i < |items| => items[i].originalPath)
  }

  datatype BackupResult = BackupOk(manifest: Manifest) | BackupFailed | BackupThrew

  /** What identifies a snapshot; the ids come from the clock, the directory listing and a UUID. */
  datatype SnapshotIds = SnapshotIds(ymd: Text, snapshotId: Text, restorePointId: Text, createdAt: Text)

  ghost predicate OutsideSafekeep(ws: Path, paths: seq<Path>) {
    forall i :: 0 <= i < |paths| ==> !InSafekeep(ws, paths[i])
  }

  ghost predicate OnlySafekeep(ws: Path, a: Files, b: Files) {
    forall p {:trigger p in a} {:trigger p in b} {:trigger AgreeAt(a, b, p)} :: !InSafekeep(ws, p) ==> AgreeAt(a, b, p)
  }

  /** Nothing outside the snapshot directory is different. */
  ghost predicate OnlyDir(dir: Path, a: Files, b: Files) {
    forall p {:trigger p in a} {:trigger p in b} {:trigger AgreeAt(a, b, p)} :: !Under(p, dir.parts) ==> AgreeAt(a, b, p)
  }

  lemma DirInSafekeep(ws: Path, ids: SnapshotIds, a: Files, b: Files)
    requires OnlyDir(SnapshotDir(ws, ids.ymd, ids.snapshotId), a, b)
    ensures OnlySafekeep(ws, a, b)
  {
    var dir := SnapshotDir(ws, ids.ymd, ids.snapshotId);
    assert ws.parts + [SAFEKEEP] <= dir.parts;
    forall p | !InSafekeep(ws, p)
      ensures AgreeAt(a, b, p)
    {
      assert !Under(p, dir.parts);
    }
  }

  /** The manifests the restore search could find are the same, but for `except`. */
  ghost predicate SameManifests(ws: Path, a: Files, b: Files, except: set<Path>) {
    forall p {:trigger p in b} {:trigger AgreeAt(a, b, p)} ::
      IsManifestPath(ws, p) && p !in except ==> AgreeAt(a, b, p)
  }

  predicate Records(it: ManifestItem, plan: PlanItem, dir: Path, i: nat) {
    && it.originalPath == plan.originalPath && it.backupPath == BackupPath(dir, i, plan.originalPath)
    && it.size == plan.size && it.mtimeMs == plan.mtimeMs && it.existsBefore == plan.existsBefore
  }

  /** The backups of the first items are in place, with the digests recorded for them. */
  ghost predicate BackedUp(files: Files, sha: Content -> Text, dir: Path, plan: seq<PlanItem>, items: seq<ManifestItem>) {
    && |items| <= |plan|
    && forall i :: 0 <= i < |items| ==> Records(items[i], plan[i], dir, i) && BackupIntact(files, sha, items[i])
  }

  /** Each backup holds what the original held in `before`. */
  ghost predicate HoldsOriginals(before: Files, files: Files, items: seq<ManifestItem>) {
    forall i :: 0 <= i < |items| ==> HoldsOriginal(before, files, items[i])
  }

  predicate HoldsOriginal(before: Files, files: Files, it: ManifestItem) {
    && it.originalPath in before && it.backupPath in files
    && files[it.backupPath] == before[it.originalPath]
  }

  /** Writing one more backup disturbs neither the earlier ones nor anything outside. */
  lemma OneMoreBackup(before: Files, a: Files, b: Files, sha: Content -> Text,
                      ws: Path, ids: SnapshotIds, plan: seq<PlanItem>, items: seq<ManifestItem>)
    requires |items| < |plan|
    requires var dir := SnapshotDir(ws, ids.ymd, ids.snapshotId);
             BackedUp(a, sha, dir, plan, items) &&
             AgreeOutside(a, b, {BackupPath(dir, |items|, plan[|items|].originalPath)})
    requires OnlyDir(SnapshotDir(ws, ids.ymd, ids.snapshotId), before, a) && SameManifests(ws, before, a, {})
    ensures BackedUp(b, sha, SnapshotDir(ws, ids.ymd, ids.snapshotId), plan, items)
    ensures HoldsOriginals(before, a, items) ==> HoldsOriginals(before, b, items)
    ensures OnlyDir(SnapshotDir(ws, ids.ymd, ids.snapshotId), before, b) && SameManifests(ws, before, b, {})
  {
    var dir := SnapshotDir(ws, ids.ymd, ids.snapshotId);
    var n := |items|;
    var target := BackupPath(dir, n, plan[n].originalPath);
    BackupIsNoManifest(ws, ids.ymd, ids.snapshotId, n, plan[n].originalPath);
    forall i | 0 <= i < n
      ensures AgreeAt(a, b, items[i].backupPath) && Records(items[i], plan[i], dir, i) && BackupIntact(b, sha, items[i])
      ensures HoldsOriginal(before, a, items[i]) ==> HoldsOriginal(before, b, items[i])
    {
      assert Records(items[i], plan[i], dir, i) && BackupIntact(a, sha, items[i]);
      BackupPathsDistinct(dir, i, plan[i].originalPath, n, plan[n].originalPath);
    }
    forall p | !Under(p, dir.parts)
      ensures AgreeAt(before, b, p)
    {
      assert AgreeAt(before, a, p) && AgreeAt(a, b, p);
    }
    forall p | IsManifestPath(ws, p)
      ensures AgreeAt(before, b, p)
    {
      assert AgreeAt(before, a, p) && AgreeAt(a, b, p);
    }
  }

  /** Where the copy loop stands after `items`. */
  ghost predicate Progress(before: Files, files: Files, sha: Content -> Text, faithful: bool,
                           ws: Path, ids: SnapshotIds, plan: seq<PlanItem>, items: seq<ManifestItem>) {
    && BackedUp(files, sha, SnapshotDir(ws, ids.ymd, ids.snapshotId), plan, items)
    && OnlyDir(SnapshotDir(ws, ids.ymd, ids.snapshotId), before, files) && SameManifests(ws, before, files, {})
    && (faithful && OutsideSafekeep(ws, PlannedPaths(plan)) ==> HoldsOriginals(before, files, items))
  }

  /** A copy to the next backup path, complete or not, keeps the progress made. */
  lemma CopyKeepsProgress(before: Files, a: Files, b: Files, sha: Content -> Text, faithful: bool,
                          ws: Path, ids: SnapshotIds, plan: seq<PlanItem>, items: seq<ManifestItem>)
    requires |items| < |plan| && Progress(before, a, sha, faithful, ws, ids, plan, items)
    requires AgreeOutside(a, b, {BackupPath(SnapshotDir(ws, ids.ymd, ids.snapshotId), |items|, plan[|items|].originalPath)})
    ensures Progress(before, b, sha, faithful, ws, ids, plan, items)
    ensures OutsideSafekeep(ws, PlannedPaths(plan)) ==> AgreeAt(before, a, plan[|items|].originalPath)
  {
    OneMoreBackup(before, a, b, sha, ws, ids, plan, items);
    DirInSafekeep(ws, ids, before, a);
    assert PlannedPaths(plan)[|items|] == plan[|items|].originalPath;
  }

  /** A hashed copy is one more item. */
  lemma CopyStep(before: Files, b: Files, sha: Content -> Text, faithful: bool,
                 ws: Path, ids: SnapshotIds, plan: seq<PlanItem>, items: seq<ManifestItem>, item: ManifestItem)
    requires |items| < |plan| && Progress(before, b, sha, faithful, ws, ids, plan, items)
    requires Records(item, plan[|items|], SnapshotDir(ws, ids.ymd, ids.snapshotId), |items|)
    requires BackupIntact(b, sha, item)
    requires faithful && OutsideSafekeep(ws, PlannedPaths(plan)) ==> HoldsOriginal(before, b, item)
    ensures Progress(before, b, sha, faithful, ws, ids, plan, items + [item])
  {
  }

  /** Every planned item is there to be copied. */
  ghost predicate Copyable(files: Files, ws: Path, plan: seq<PlanItem>) {
    && OutsideSafekeep(ws, PlannedPaths(plan))
    && forall i :: 0 <= i < |plan| ==> plan[i].originalPath in files
  }

  /** The copy loop: each original is copied under its indexed name and the copy is hashed. */
  method CopyItems(disk: Disk, ws: Path, ids: SnapshotIds, plan: seq<PlanItem>) returns (ok: bool, items: seq<ManifestItem>)
    modifies disk`files, disk`faults
    ensures disk.faults <= old(disk.faults)
    ensures Progress(old(disk.files), disk.files, disk.sha, disk.faithful || disk.faults == old(disk.faults), ws, ids, plan, items)
    ensures ok ==> |items| == |plan|
    ensures !ok && Copyable(old(disk.files), ws, plan) ==> disk.faults < old(disk.faults)
  {
    var dir := SnapshotDir(ws, ids.ymd, ids.snapshotId);
    items := [];
    for i := 0 to |plan|
      invariant |items| == i
      invariant disk.faults <= old(disk.faults)
      invariant Progress(old(disk.files), disk.files, disk.sha, disk.faithful || disk.faults == old(disk.faults), ws, ids, plan, items)
    {
      var it := plan[i];
      var item := ManifestItem(it.originalPath, BackupPath(dir, i, it.originalPath), [], it.size, it.mtimeMs, it.existsBefore);
      ghost var was := disk.files;
      var copied := disk.CopyFile(it.originalPath, item.backupPath);
      ghost var trusted := disk.faithful || disk.faults == old(disk.faults);
      CopyKeepsProgress(old(disk.files), was, disk.files, disk.sha, trusted, ws, ids, plan, items);
      if !copied { return false, items; }
      var digest := disk.HashFile(item.backupPath);
      if digest.None? { return false, items; }
      item := item.(sha256 := digest.value);
      CopyStep(old(disk.files), disk.files, disk.sha, disk.faithful || disk.faults == old(disk.faults), ws, ids, plan, items, item);
      items := items + [item];
    }
    ok := true;
  }

  function Draft(ids: SnapshotIds, commandId: Text, intent: Text, mutationKind: Text, items: seq<ManifestItem>): Manifest {
    Manifest(ids.restorePointId, ids.snapshotId, commandId, ids.createdAt, intent, mutationKind, items, None)
  }

  function Sealed(h: Text -> Text, m: Manifest): Manifest {
    m.(integritySha256 := Some(h(DraftText(m))))
  }

  /** The sealed manifest passes the integrity check of restore. */
  lemma SealPasses(h: Text -> Text, m: Manifest)
    ensures IntegrityOk(h, Sealed(h, m)) && Sealed(h, m).items == m.items
  {
    assert DraftText(Sealed(h, m)) == DraftText(m);
  }

  /** The snapshot restore will look for: found under its id only here, sealed, backups intact. */
  ghost predicate SnapshotReady(files: Files, sha: Content -> Text, h: Text -> Text, ws: Path, m: Manifest) {
    && IntegrityOk(h, m) && BackupsIntact(files, sha, m)
    && OnlyManifest(files, ws, m)
  }

  ghost predicate OnlyManifest(files: Files, ws: Path, m: Manifest) {
    forall p :: IsManifestPath(ws, p) && p in files && files[p].Document? && files[p].manifest.restorePointId == m.restorePointId ==>
      files[p].manifest == m
  }

  /** The manifest is where the search looks. */
  ghost predicate Stored(files: Files, ws: Path, m: Manifest) {
    exists p :: Candidate(files, ws, m.restorePointId, p) && files[p].manifest == m
  }

  predicate Candidate(files: Files, ws: Path, restorePointId: Text, p: Path) {
    p in files && IsManifestPath(ws, p) && files[p].Document? && files[p].manifest.restorePointId == restorePointId
  }

  /** No manifest on disk carries the id yet. */
  ghost predicate FreshId(files: Files, ws: Path, restorePointId: Text) {
    forall p :: IsManifestPath(ws, p) && p in files && files[p].Document? ==>
      files[p].manifest.restorePointId != restorePointId
  }

  /** The manifest says whose snapshot it is, of what command, and when it was taken. */
  ghost predicate Describes(m: Manifest, ids: SnapshotIds, commandId: Text, intent: Text, mutationKind: Text) {
    && m.restorePointId == ids.restorePointId && m.snapshotId == ids.snapshotId && m.createdAt == ids.createdAt
    && m.commandId == commandId && m.intent == intent && m.mutationKind == mutationKind
  }

  /** What a successful backup leaves: the sealed manifest of the planned items in its place, a
      hashed copy of each under its own name, and nothing else changed. */
  ghost predicate BackupMade(before: Files, files: Files, sha: Content -> Text, h: Text -> Text, ws: Path, ids: SnapshotIds,
                             commandId: Text, intent: Text, mutationKind: Text, plan: seq<PlanItem>, m: Manifest) {
    var dir := SnapshotDir(ws, ids.ymd, ids.snapshotId);
    && Describes(m, ids, commandId, intent, mutationKind) && m.integritySha256 == Some(h(DraftText(m)))
    && |m.items| == |plan| && BackedUp(files, sha, dir, plan, m.items)
    && ManifestPath(dir) in files && files[ManifestPath(dir)] == Document(m)
    && OnlyDir(dir, before, files) && SameManifests(ws, before, files, {ManifestPath(dir)})
  }

  /** A backup passes every check of restore, and the search for a fresh id meets only it. */
  lemma BackupChecksOut(before: Files, files: Files, sha: Content -> Text, h: Text -> Text, ws: Path, ids: SnapshotIds,
                        commandId: Text, intent: Text, mutationKind: Text, plan: seq<PlanItem>, m: Manifest)
    requires BackupMade(before, files, sha, h, ws, ids, commandId, intent, mutationKind, plan, m)
    ensures m.restorePointId == ids.restorePointId && Originals(m) == PlannedPaths(plan)
    ensures IntegrityOk(h, m) && BackupsIntact(files, sha, m) && Stored(files, ws, m)
    ensures FreshId(before, ws, ids.restorePointId) ==> SnapshotReady(files, sha, h, ws, m)
  {
    var dir := SnapshotDir(ws, ids.ymd, ids.snapshotId);
    SealPasses(h, Draft(ids, commandId, intent, mutationKind, m.items));
    RecordedOriginals(files, sha, dir, plan, m);
    ManifestPathIs(ws, ids.ymd, ids.snapshotId);
    assert Candidate(files, ws, m.restorePointId, ManifestPath(dir));
    if FreshId(before, ws, ids.restorePointId) {
      forall p | IsManifestPath(ws, p) && p in files && files[p].Document? && files[p].manifest.restorePointId == m.restorePointId
        ensures files[p].manifest == m
      {
        assert p != ManifestPath(dir) ==> AgreeAt(before, files, p);
      }
    }
  }

  /** Copy-on-write backup of every planned item, then the sealed manifest.  Only the safekeep area
      is written.  On success every item is backed up under its own name, in order. */
  method RunBackupCow(disk: Disk, h: Text -> Text, ws: Path, ids: SnapshotIds,
                      commandId: Text, intent: Text, mutationKind: Text, plan: seq<PlanItem>)
    returns (r: BackupResult)
    modifies disk`files, disk`faults
    ensures OnlySafekeep(ws, old(disk.files), disk.files)
    ensures OnlyDir(SnapshotDir(ws, ids.ymd, ids.snapshotId), old(disk.files), disk.files)
    ensures r.BackupOk? ==>
      BackupMade(old(disk.files), disk.files, disk.sha, h, ws, ids, commandId, intent, mutationKind, plan, r.manifest)
    ensures r.BackupOk? ==>
      && r.manifest.restorePointId == ids.restorePointId
      && Originals(r.manifest) == PlannedPaths(plan)
      && IntegrityOk(h, r.manifest)
      && BackedUp(disk.files, disk.sha, SnapshotDir(ws, ids.ymd, ids.snapshotId), plan, r.manifest.items)
      && BackupsIntact(disk.files, disk.sha, r.manifest)
    ensures r.BackupOk? && FreshId(old(disk.files), ws, ids.restorePointId) ==>
      SnapshotReady(disk.files, disk.sha, h, ws, r.manifest)
    ensures r.BackupOk? ==> Stored(disk.files, ws, r.manifest)
    ensures disk.faults <= old(disk.faults)
    ensures r.BackupOk? && (disk.faithful || disk.faults == old(disk.faults)) && OutsideSafekeep(ws, PlannedPaths(plan)) ==>
      HoldsOriginals(old(disk.files), disk.files, r.manifest.items)
    ensures !r.BackupOk? && Copyable(old(disk.files), ws, plan) ==> disk.faults < old(disk.faults)
    ensures r.BackupThrew? ==> disk.faults < old(disk.faults)
  {
    var rootFails := disk.Fault();
    if rootFails { return BackupThrew; }
    var dirFails := disk.Fault();
    if dirFails { return BackupFailed; }
    var ok, items := CopyItems(disk, ws, ids, plan);
    DirInSafekeep(ws, ids, old(disk.files), disk.files);
    if !ok { return BackupFailed; }
    var m := Sealed(h, Draft(ids, commandId, intent, mutationKind, items));
    var manifestPath := ManifestPath(SnapshotDir(ws, ids.ymd, ids.snapshotId));
    ghost var was := disk.files;
    var written := disk.WriteFile(manifestPath, Document(m));
    ManifestWritten(old(disk.files), was, disk.files, disk.sha, ws, ids, plan, items);
    DirInSafekeep(ws, ids, old(disk.files), disk.files);
    if !written { return BackupFailed; }
    assert DraftText(m) == DraftText(Draft(ids, commandId, intent, mutationKind, items));
    BackupChecksOut(old(disk.files), disk.files, disk.sha, h, ws, ids, commandId, intent, mutationKind, plan, m);
    return BackupOk(m);
  }

  lemma RecordedOriginals(files: Files, sha: Content -> Text, dir: Path, plan: seq<PlanItem>, m: Manifest)
    requires BackedUp(files, sha, dir, plan, m.items) && |m.items| == |plan|
    ensures Originals(m) == PlannedPaths(plan)
  {
    forall i | 0 <= i < |plan|
      ensures Originals(m)[i] == PlannedPaths(plan)[i]
    {
      assert Records(m.items[i], plan[i], dir, i);
    }
  }

  /** Writing the manifest file leaves the backups, the user's files and the other manifests alone. */
  lemma ManifestWritten(before: Files, a: Files, b: Files, sha: Content -> Text,
                        ws: Path, ids: SnapshotIds, plan: seq<PlanItem>, items: seq<ManifestItem>)
    requires var dir := SnapshotDir(ws, ids.ymd, ids.snapshotId);
             BackedUp(a, sha, dir, plan, items) && AgreeOutside(a, b, {ManifestPath(dir)})
    requires OnlyDir(SnapshotDir(ws, ids.ymd, ids.snapshotId), before, a) && SameManifests(ws, before, a, {})
    ensures BackedUp(b, sha, SnapshotDir(ws, ids.ymd, ids.snapshotId), plan, items)
    ensures HoldsOriginals(before, a, items) ==> HoldsOriginals(before, b, items)
    ensures OnlyDir(SnapshotDir(ws, ids.ymd, ids.snapshotId), before, b)
    ensures SameManifests(ws, before, b, {ManifestPath(SnapshotDir(ws, ids.ymd, ids.snapshotId))})
  {
    var dir := SnapshotDir(ws, ids.ymd, ids.snapshotId);
    ManifestPathIs(ws, ids.ymd, ids.snapshotId);
    forall i | 0 <= i < |items|
      ensures AgreeAt(a, b, items[i].backupPath) && Records(items[i], plan[i], dir, i) && BackupIntact(b, sha, items[i])
      ensures HoldsOriginal(before, a, items[i]) ==> HoldsOriginal(before, b, items[i])
    {
      assert Records(items[i], plan[i], dir, i) && BackupIntact(a, sha, items[i]);
      BackupIsNoManifest(ws, ids.ymd, ids.snapshotId, i, plan[i].originalPath);
    }
    forall p | !Under(p, dir.parts)
      ensures AgreeAt(before, b, p)
    {
      assert AgreeAt(before, a, p) && AgreeAt(a, b, p);
    }
    forall p | IsManifestPath(ws, p) && p != ManifestPath(dir)
      ensures AgreeAt(before, b, p)
    {
      assert AgreeAt(before, a, p) && AgreeAt(a, b, p);
    }
  }

  // ----- Restore -----

  /** Why a restore did not go through. */
  datatype Refusal =
    | AuditThrew
    | ManifestNotFound
    | ManifestEmpty(unread: bool)
    | IntegrityMismatch
    | BackupMissing
    | BackupUnreadable
    | BackupMismatch
    | CopyFailed
    | RestoredMismatch

  datatype RestoreResult = RestoreResult(
    ok: bool,
    refusal: Option<Refusal>,
    manifest: Option<Manifest>,
    restored: seq<Path>,
    failed: seq<Path>)

  /** What a backup of files outside the safekeep area has made can be restored. */
  lemma BackupRestorable(files: Files, sha: Content -> Text, h: Text -> Text, ws: Path, ids: SnapshotIds, plan: seq<PlanItem>, m: Manifest)
    requires SnapshotReady(files, sha, h, ws, m) && Stored(files, ws, m)
    requires BackedUp(files, sha, SnapshotDir(ws, ids.ymd, ids.snapshotId), plan, m.items) && |m.items| == |plan| > 0
    requires OutsideSafekeep(ws, PlannedPaths(plan))
    ensures Restorable(files, sha, h, ws, m)
  {
    var dir := SnapshotDir(ws, ids.ymd, ids.snapshotId);
    forall i | 0 <= i < |m.items|
      ensures InSafekeep(ws, m.items[i].backupPath) && !InAudit(ws, m.items[i].backupPath)
      ensures !InSafekeep(ws, m.items[i].originalPath)
    {
      assert Records(m.items[i], plan[i], dir, i);
      BackupIsNoManifest(ws, ids.ymd, ids.snapshotId, i, plan[i].originalPath);
      assert PlannedPaths(plan)[i] == plan[i].originalPath;
    }
  }

  method ReadManifestAt(disk: Disk, p: Path) returns (m: Option<Manifest>)
    modifies disk`faults
    ensures m.Some? ==> p in disk.files && disk.files[p] == Document(m.value)
    ensures disk.faults <= old(disk.faults)
    ensures m.None? && p in disk.files && disk.files[p].Document? ==> disk.faults < old(disk.faults)
  {
    var fails := disk.Fault();
    if !fails && p in disk.files && disk.files[p].Document? {
      return Some(disk.files[p].manifest);
    }
    return None;
  }

  /** The directory walk: some manifest file with the id; none only if there is none, or by a fault. */
  method FindManifestPath(disk: Disk, ws: Path, restorePointId: Text) returns (p: Option<Path>)
    modifies disk`faults
    ensures p.Some? ==> Candidate(disk.files, ws, restorePointId, p.value)
    ensures disk.faults <= old(disk.faults)
    ensures p.None? && (exists q :: Candidate(disk.files, ws, restorePointId, q)) ==> disk.faults < old(disk.faults)
  {
    var fails := disk.Fault();
    if !fails && exists q :: q in disk.files && Candidate(disk.files, ws, restorePointId, q) {
      var q :| q in disk.files && Candidate(disk.files, ws, restorePointId, q);
      return Some(q);
    }
    return None;
  }

  /** `p` holds the content recorded for one of the first `k` items with that original path. */
  ghost predicate HoldsRecorded(files: Files, sha: Content -> Text, m: Manifest, k: nat, p: Path) {
    exists j :: 0 <= j < k && j < |m.items| && RecordedAt(files, sha, m.items[j], p)
  }

  predicate RecordedAt(files: Files, sha: Content -> Text, it: ManifestItem, p: Path) {
    it.originalPath == p && p in files && sha(files[p]) == it.sha256
  }

  /** The first `k` original paths. */
  ghost function FirstOriginals(m: Manifest, k: nat): set<Path>
    requires k <= |m.items|
  {
    set i | 0 <= i < k :: m.items[i].originalPath
  }

  /** After the first `k` items: only their paths were written, and each holds a recorded content. */
  ghost predicate RestoredPrefix(before: Files, files: Files, sha: Content -> Text, m: Manifest, k: nat)
    requires k <= |m.items|
  {
    && AgreeOutside(before, files, FirstOriginals(m, k))
    && forall p :: p in FirstOriginals(m, k) ==> HoldsRecorded(files, sha, m, k, p)
  }

  lemma OneMoreRestored(before: Files, a: Files, b: Files, sha: Content -> Text, m: Manifest, k: nat)
    requires k < |m.items| && RestoredPrefix(before, a, sha, m, k)
    requires AgreeOutside(a, b, {m.items[k].originalPath})
    requires RecordedAt(b, sha, m.items[k], m.items[k].originalPath)
    ensures RestoredPrefix(before, b, sha, m, k + 1)
  {
    var o := m.items[k].originalPath;
    assert FirstOriginals(m, k + 1) == FirstOriginals(m, k) + {o};
    forall p | p !in FirstOriginals(m, k + 1)
      ensures AgreeAt(before, b, p)
    {
      assert AgreeAt(before, a, p) && AgreeAt(a, b, p);
    }
    var firsts := FirstOriginals(m, k + 1);
    forall p | p in firsts
      ensures HoldsRecorded(b, sha, m, k + 1, p)
    {
      if p != o {
        assert HoldsRecorded(a, sha, m, k, p);
        var j :| 0 <= j < k && RecordedAt(a, sha, m.items[j], p);
        assert AgreeAt(a, b, p);
        assert RecordedAt(b, sha, m.items[j], p);
      }
    }
  }

  /** A restore that stopped at item `k`: what it reports is restored, nothing further than item
      `k` was touched. */
  ghost predicate StoppedAt(before: Files, files: Files, sha: Content -> Text, m: Manifest, k: nat)
    requires k < |m.items|
  {
    && AgreeOutside(before, files, FirstOriginals(m, k + 1))
    && forall p :: p in FirstOriginals(m, k) && p != m.items[k].originalPath ==> HoldsRecorded(files, sha, m, k, p)
  }

  lemma StopAfter(before: Files, a: Files, b: Files, sha: Content -> Text, m: Manifest, k: nat)
    requires k < |m.items| && RestoredPrefix(before, a, sha, m, k)
    requires AgreeOutside(a, b, {m.items[k].originalPath})
    ensures StoppedAt(before, b, sha, m, k)
  {
    var o := m.items[k].originalPath;
    assert FirstOriginals(m, k + 1) == FirstOriginals(m, k) + {o};
    forall p | p !in FirstOriginals(m, k + 1)
      ensures AgreeAt(before, b, p)
    {
      assert AgreeAt(before, a, p) && AgreeAt(a, b, p);
    }
    var firsts := FirstOriginals(m, k);
    forall p | p in firsts && p != o
      ensures HoldsRecorded(b, sha, m, k, p)
    {
      var j :| 0 <= j < k && RecordedAt(a, sha, m.items[j], p);
      assert AgreeAt(a, b, p);
      assert RecordedAt(b, sha, m.items[j], p);
    }
  }

  /** No backup lies where an original is restored. */
  ghost predicate Apart(m: Manifest) {
    forall i, j :: 0 <= i < |m.items| && 0 <= j < |m.items| ==> m.items[i].backupPath != m.items[j].originalPath
  }

  /** Restoring earlier items has not disturbed the next backup. */
  lemma BackupStillIntact(before: Files, files: Files, sha: Content -> Text, m: Manifest, i: nat)
    requires i < |m.items| && RestoredPrefix(before, files, sha, m, i)
    ensures BackupsIntact(before, sha, m) && Apart(m) ==> BackupIntact(files, sha, m.items[i])
  {
    if BackupsIntact(before, sha, m) && Apart(m) {
      assert BackupIntact(before, sha, m.items[i]);
      assert m.items[i].backupPath !in FirstOriginals(m, i);
      assert AgreeAt(before, files, m.items[i].backupPath);
    }
  }

  /** One item: its backup is checked, copied over the original, and the copy is checked.  An item
      whose backup does not check out is not written. */
  method RestoreItem(disk: Disk, item: ManifestItem) returns (stopped: Option<Refusal>)
    modifies disk`files, disk`faults
    ensures AgreeOutside(old(disk.files), disk.files, {item.originalPath})
    ensures stopped.None? ==> RecordedAt(disk.files, disk.sha, item, item.originalPath)
    ensures stopped.Some? ==> stopped.value in {BackupMissing, BackupUnreadable, BackupMismatch, CopyFailed, RestoredMismatch}
    ensures stopped.Some? && stopped.value in {BackupMissing, BackupUnreadable, BackupMismatch} ==> disk.files == old(disk.files)
    ensures stopped == Some(BackupMismatch) ==> !BackupIntact(disk.files, disk.sha, item)
    ensures stopped.Some? && stopped.value in {CopyFailed, RestoredMismatch} ==> BackupIntact(old(disk.files), disk.sha, item)
    ensures disk.faults <= old(disk.faults)
    ensures stopped.Some? && BackupIntact(old(disk.files), disk.sha, item) ==> disk.faults < old(disk.faults)
    ensures stopped.Some? && stopped.value.BackupUnreadable? ==> disk.faults < old(disk.faults)
  {
    var there := disk.Access(item.backupPath);
    if !there { return Some(BackupMissing); }
    var digest := disk.HashFile(item.backupPath);
    if digest.None? { return Some(BackupUnreadable); }
    if digest.value != item.sha256 { return Some(BackupMismatch); }
    var copied := disk.CopyFile(item.backupPath, item.originalPath);
    if !copied { return Some(CopyFailed); }
    var now := disk.HashFile(item.originalPath);
    if now.None? { return Some(CopyFailed); }
    if now.value != item.sha256 { return Some(RestoredMismatch); }
    return None;
  }

  /** The item loop.  `stopped` is the refusal at item `|restored|`, if any.  An item whose backup
      does not check out is not written; one that was being written had an intact backup. */
  method RestoreItems(disk: Disk, m: Manifest) returns (stopped: Option<Refusal>, restored: seq<Path>)
    modifies disk`files, disk`faults
    ensures |restored| <= |m.items| && restored == Originals(m)[..|restored|]
    ensures stopped.None? ==> |restored| == |m.items| && RestoredPrefix(old(disk.files), disk.files, disk.sha, m, |m.items|)
    ensures stopped.Some? ==>
      && |restored| < |m.items| && StoppedAt(old(disk.files), disk.files, disk.sha, m, |restored|)
      && stopped.value in {BackupMissing, BackupUnreadable, BackupMismatch, CopyFailed, RestoredMismatch}
    ensures stopped.Some? && stopped.value in {BackupMissing, BackupUnreadable, BackupMismatch} ==>
      RestoredPrefix(old(disk.files), disk.files, disk.sha, m, |restored|)
    ensures stopped == Some(BackupMismatch) ==> !BackupIntact(disk.files, disk.sha, m.items[|restored|])
    ensures stopped.Some? && stopped.value in {CopyFailed, RestoredMismatch} ==>
      exists before :: RestoredPrefix(old(disk.files), before, disk.sha, m, |restored|) &&
                       BackupIntact(before, disk.sha, m.items[|restored|])
    ensures disk.faults <= old(disk.faults)
    ensures stopped.Some? && BackupsIntact(old(disk.files), disk.sha, m) && Apart(m) ==> disk.faults < old(disk.faults)
    ensures stopped.Some? && stopped.value.BackupUnreadable? ==> disk.faults < old(disk.faults)
  {
    restored := [];
    assert FirstOriginals(m, 0) == {};
    for i := 0 to |m.items|
      invariant |restored| == i && restored == Originals(m)[..i]
      invariant RestoredPrefix(old(disk.files), disk.files, disk.sha, m, i)
      invariant disk.faults <= old(disk.faults)
    {
      ghost var was := disk.files;
      BackupStillIntact(old(disk.files), was, disk.sha, m, i);
      stopped := RestoreItem(disk, m.items[i]);
      StopAfter(old(disk.files), was, disk.files, disk.sha, m, i);
      if stopped.Some? { return; }
      OneMoreRestored(old(disk.files), was, disk.files, disk.sha, m, i);
      restored := restored + [m.items[i].originalPath];
    }
    stopped := None;
  }

  /** How far a restore of `m` that reports `k` restored paths can have reached. */
  function Reach(m: Manifest, k: nat): nat
    requires k <= |m.items|
  {
    if k < |m.items| then k + 1 else k
  }

  /** What a restore that got as far as manifest `m` did: the reported paths are the first ones and
      hold what the manifest records, and beyond the path it stopped at nothing was touched. */
  ghost predicate RestoreReport(ws: Path, before: Files, after: Files, sha: Content -> Text, m: Manifest, restored: seq<Path>) {
    var k := |restored|;
    && k <= |m.items| && restored == Originals(m)[..k]
    && (forall p {:trigger p in after} {:trigger AgreeAt(before, after, p)} ::
          !InAudit(ws, p) && p !in FirstOriginals(m, Reach(m, k)) ==> AgreeAt(before, after, p))
    && (forall p {:trigger HoldsRecorded(after, sha, m, k, p)} ::
          !InAudit(ws, p) && p in FirstOriginals(m, k) && (k < |m.items| ==> p != m.items[k].originalPath) ==>
            HoldsRecorded(after, sha, m, k, p))
  }

  /** Audit entries before and after the item loop do not disturb the report. */
  lemma ReportFromItems(ws: Path, before: Files, a: Files, b: Files, after: Files, sha: Content -> Text,
                        m: Manifest, restored: seq<Path>)
    requires OnlyAudit(ws, before, a) && OnlyAudit(ws, b, after)
    requires |restored| <= |m.items| && restored == Originals(m)[..|restored|]
    requires |restored| == |m.items| ==> RestoredPrefix(a, b, sha, m, |m.items|)
    requires |restored| < |m.items| ==> StoppedAt(a, b, sha, m, |restored|)
    ensures RestoreReport(ws, before, after, sha, m, restored)
  {
    var k := |restored|;
    var touched := FirstOriginals(m, Reach(m, k));
    forall p | !InAudit(ws, p) && p !in touched
      ensures AgreeAt(before, after, p)
    {
      assert AgreeAt(before, a, p) && AgreeAt(a, b, p) && AgreeAt(b, after, p);
    }
    var firsts := FirstOriginals(m, k);
    forall p | !InAudit(ws, p) && p in firsts && (k < |m.items| ==> p != m.items[k].originalPath)
      ensures HoldsRecorded(after, sha, m, k, p)
    {
      assert HoldsRecorded(b, sha, m, k, p);
      var j :| 0 <= j < k && RecordedAt(b, sha, m.items[j], p);
      assert AgreeAt(b, after, p);
      assert RecordedAt(after, sha, m.items[j], p);
    }
  }

  // ----- When a restore must succeed -----

  /** Nothing but a fault keeps a restore of `m` from success. */
  ghost predicate Restorable(files: Files, sha: Content -> Text, h: Text -> Text, ws: Path, m: Manifest) {
    && Stored(files, ws, m) && OnlyManifest(files, ws, m) && IntegrityOk(h, m) && m.items != []
    && BackupsIntact(files, sha, m) && Apart(m) && BackupsInArea(ws, m)
  }

  ghost predicate BackupsInArea(ws: Path, m: Manifest) {
    forall i :: 0 <= i < |m.items| ==> InSafekeep(ws, m.items[i].backupPath) && !InAudit(ws, m.items[i].backupPath)
  }

  ghost predicate RestorableId(files: Files, sha: Content -> Text, h: Text -> Text, ws: Path, restorePointId: Text) {
    exists m: Manifest :: m.restorePointId == restorePointId && Restorable(files, sha, h, ws, m)
  }

  lemma ManifestInSafekeep(ws: Path, p: Path)
    requires IsManifestPath(ws, p)
    ensures InSafekeep(ws, p) && !InAudit(ws, p)
  {
    var below := p.parts[|ws.parts| + 2..];
    assert p.parts == ws.parts + ([SAFEKEEP, SNAPSHOTS] + below);
    AreaOf(ws, p, SNAPSHOTS, below);
    assert |AUDIT| != |SNAPSHOTS|;
  }

  /** The safekeep area, leaving aside the audit log, is the same. */
  ghost predicate SameArea(ws: Path, a: Files, b: Files) {
    forall p {:trigger p in a} {:trigger p in b} {:trigger AgreeAt(a, b, p)} :: InSafekeep(ws, p) && !InAudit(ws, p) ==> AgreeAt(a, b, p)
  }

  /** Changes outside the safekeep area, and audit entries, leave a snapshot restorable. */
  lemma StaysRestorable(ws: Path, a: Files, b: Files, sha: Content -> Text, h: Text -> Text, m: Manifest)
    requires SameArea(ws, a, b) && Restorable(a, sha, h, ws, m)
    ensures Restorable(b, sha, h, ws, m)
  {
    forall p | IsManifestPath(ws, p)
      ensures AgreeAt(a, b, p)
    {
      ManifestInSafekeep(ws, p);
    }
    var p :| Candidate(a, ws, m.restorePointId, p) && a[p].manifest == m;
    assert AgreeAt(a, b, p) && Candidate(b, ws, m.restorePointId, p);
    forall i | 0 <= i < |m.items|
      ensures BackupIntact(b, sha, m.items[i])
    {
      assert BackupIntact(a, sha, m.items[i]) && AgreeAt(a, b, m.items[i].backupPath);
    }
    StaysOnly(ws, a, b, m);
  }

  lemma StaysOnly(ws: Path, a: Files, b: Files, m: Manifest)
    requires OnlyManifest(a, ws, m) && forall p :: IsManifestPath(ws, p) ==> AgreeAt(a, b, p)
    ensures OnlyManifest(b, ws, m)
  {
    forall p | IsManifestPath(ws, p) && p in b && b[p].Document? && b[p].manifest.restorePointId == m.restorePointId
      ensures b[p].manifest == m
    {
      assert AgreeAt(a, b, p);
    }
  }

  /** Whichever manifest the search meets, it is the restorable one. */
  lemma FoundRestorable(files: Files, sha: Content -> Text, h: Text -> Text, ws: Path, restorePointId: Text)
    requires RestorableId(files, sha, h, ws, restorePointId)
    ensures exists p :: Candidate(files, ws, restorePointId, p)
    ensures forall p :: Candidate(files, ws, restorePointId, p) ==> Restorable(files, sha, h, ws, files[p].manifest)
  {
    var m: Manifest :| m.restorePointId == restorePointId && Restorable(files, sha, h, ws, m);
    var p :| Candidate(files, ws, m.restorePointId, p) && files[p].manifest == m;
  }

  lemma AuditKeepsRestorable(ws: Path, a: Files, b: Files, sha: Content -> Text, h: Text -> Text, restorePointId: Text)
    requires OnlyAudit(ws, a, b) && RestorableId(a, sha, h, ws, restorePointId)
    ensures RestorableId(b, sha, h, ws, restorePointId)
  {
    var m: Manifest :| m.restorePointId == restorePointId && Restorable(a, sha, h, ws, m);
    StaysRestorable(ws, a, b, sha, h, m);
  }

  /** The first half of a restore: announce it, find the manifest, read it and check its seal. */
  method OpenManifest(disk: Disk, h: Text -> Text, ws: Path, restorePointId: Text, logName: Text)
    returns (m: Option<Manifest>, refusal: Refusal)
    modifies disk
    ensures OnlyAudit(ws, old(disk.files), disk.files)
    ensures m.Some? ==>
      && m.value.items != [] && IntegrityOk(h, m.value)
      && exists p :: Candidate(old(disk.files), ws, restorePointId, p) && old(disk.files)[p].manifest == m.value
    ensures m.None? && refusal == IntegrityMismatch ==>
      exists p :: Candidate(old(disk.files), ws, restorePointId, p) && !IntegrityOk(h, old(disk.files)[p].manifest)
    ensures m.None? ==> refusal in {AuditThrew, ManifestNotFound, ManifestEmpty(true), ManifestEmpty(false), IntegrityMismatch}
    ensures m.None? && refusal == ManifestEmpty(false) ==>
      exists p :: Candidate(old(disk.files), ws, restorePointId, p) && old(disk.files)[p].manifest.items == []
    ensures m.None? && refusal == ManifestNotFound && (exists p :: Candidate(old(disk.files), ws, restorePointId, p)) ==>
      disk.faults < old(disk.faults)
    ensures disk.faults <= old(disk.faults)
    ensures disk.audited >= old(disk.audited) && (m.Some? ==> disk.audited == old(disk.audited) + 1)
    ensures m.None? && (refusal.ManifestNotFound? || refusal.IntegrityMismatch?) ==> disk.audited == old(disk.audited) + 2
    ensures m.None? && (refusal.AuditThrew? || refusal == ManifestEmpty(true)) ==> disk.faults < old(disk.faults)
    ensures RestorableId(old(disk.files), disk.sha, h, ws, restorePointId) ==>
      if m.None? then disk.faults < old(disk.faults) else Restorable(disk.files, disk.sha, h, ws, m.value)
  {
    var logged := AppendAudit(disk, ws, logName);
    if !logged { return None, AuditThrew; }
    ghost var begun := disk.files;
    SameCandidates(ws, old(disk.files), begun, restorePointId);
    if RestorableId(old(disk.files), disk.sha, h, ws, restorePointId) {
      AuditKeepsRestorable(ws, old(disk.files), begun, disk.sha, h, restorePointId);
      FoundRestorable(begun, disk.sha, h, ws, restorePointId);
    }
    var at := FindManifestPath(disk, ws, restorePointId);
    if at.None? {
      logged := AppendAudit(disk, ws, logName);
      return None, if logged then ManifestNotFound else AuditThrew;
    }
    var read := ReadManifestAt(disk, at.value);
    if read.None? || read.value.items == [] {
      return None, ManifestEmpty(read.None?);
    }
    assert Candidate(old(disk.files), ws, restorePointId, at.value) && old(disk.files)[at.value].manifest == read.value;
    if !IntegrityOk(h, read.value) {
      logged := AppendAudit(disk, ws, logName);
      return None, if logged then IntegrityMismatch else AuditThrew;
    }
    return read, ManifestNotFound;
  }

  /** The restore ends with an audit entry, besides the one that announces it. */
  predicate Audits(refusal: Option<Refusal>) {
    refusal.None? ||
    match refusal.value
    case ManifestNotFound => true
    case IntegrityMismatch => true
    case BackupMissing => true
    case BackupMismatch => true
    case CopyFailed => true
    case _ => false
  }

  method RestoreByRestorePointId(disk: Disk, h: Text -> Text, ws: Path, restorePointId: Text, logName: Text)
    returns (r: RestoreResult)
    modifies disk
    ensures r.ok <==> r.refusal.None?
    ensures r.manifest.None? ==> !r.ok && r.restored == [] && OnlyAudit(ws, old(disk.files), disk.files)
    ensures r.manifest.Some? ==>
      && (exists p :: Candidate(old(disk.files), ws, restorePointId, p) && old(disk.files)[p].manifest == r.manifest.value)
      && IntegrityOk(h, r.manifest.value)
      && RestoreReport(ws, old(disk.files), disk.files, disk.sha, r.manifest.value, r.restored)
    ensures r.ok ==> r.manifest.Some? && r.restored == Originals(r.manifest.value) != [] && r.failed == []
    ensures r.refusal == Some(IntegrityMismatch) ==>
      exists p :: Candidate(old(disk.files), ws, restorePointId, p) && !IntegrityOk(h, old(disk.files)[p].manifest)
    ensures r.failed != [] ==> r.manifest.Some? && |r.restored| < |r.manifest.value.items| &&
                               r.failed == [r.manifest.value.items[|r.restored|].originalPath]
    ensures disk.faults <= old(disk.faults)
    ensures disk.audited >= old(disk.audited) && (Audits(r.refusal) ==> disk.audited == old(disk.audited) + 2)
    ensures r.refusal.Some? && (r.refusal.value.AuditThrew? || r.refusal.value.BackupUnreadable?) ==>
      disk.faults < old(disk.faults)
    ensures !r.ok && RestorableId(old(disk.files), disk.sha, h, ws, restorePointId) ==> disk.faults < old(disk.faults)
  {
    var found, refusal := OpenManifest(disk, h, ws, restorePointId, logName);
    if found.None? { return RestoreResult(false, Some(refusal), None, [], []); }
    var m := found.value;
    ghost var begun := disk.files;
    var stopped, restored := RestoreItems(disk, m);
    ghost var done := disk.files;
    var logged := true;
    if stopped.Some? {
      if stopped.value != RestoredMismatch && stopped.value != BackupUnreadable {
        logged := AppendAudit(disk, ws, logName);
      }
      ReportFromItems(ws, old(disk.files), begun, done, disk.files, disk.sha, m, restored);
      return RestoreResult(false, if logged then stopped else Some(AuditThrew), Some(m), restored, [m.items[|restored|].originalPath]);
    }
    logged := AppendAudit(disk, ws, logName);
    ReportFromItems(ws, old(disk.files), begun, done, disk.files, disk.sha, m, restored);
    if !logged { return RestoreResult(false, Some(AuditThrew), Some(m), restored, []); }
    assert Originals(m)[..|m.items|] == Originals(m);
    return RestoreResult(true, None, Some(m), restored, []);
  }

  lemma SameCandidates(ws: Path, a: Files, b: Files, restorePointId: Text)
    requires OnlyAudit(ws, a, b)
    ensures forall p :: Candidate(b, ws, restorePointId, p) ==> Candidate(a, ws, restorePointId, p) && a[p] == b[p]
    ensures forall p :: Candidate(a, ws, restorePointId, p) ==> Candidate(b, ws, restorePointId, p)
  {
    forall p | IsManifestPath(ws, p)
      ensures AgreeAt(a, b, p)
    {
      AreasApart(ws, p);
    }
  }

  // ----- The round trip -----

  /** The manifest records, for each item, the digest of what its original held in `before`. */
  ghost predicate RecordsState(before: Files, sha: Content -> Text, m: Manifest) {
    forall i :: 0 <= i < |m.items| ==>
      m.items[i].originalPath in before && m.items[i].sha256 == sha(before[m.items[i].originalPath])
  }

  /** An intact backup records the state it was taken in exactly when each backup holds what its
      original held: something that can be checked before COMMIT, and that the code does not check. */
  lemma RecordsStateIff(before: Files, files: Files, sha: Content -> Text, m: Manifest)
    requires Collisionless(sha) && BackupsIntact(files, sha, m)
    ensures RecordsState(before, sha, m) <==> HoldsOriginals(before, files, m.items)
  {
    forall i | 0 <= i < |m.items|
      ensures HoldsOriginal(before, files, m.items[i]) <==>
              m.items[i].originalPath in before && m.items[i].sha256 == sha(before[m.items[i].originalPath])
    {
      assert BackupIntact(files, sha, m.items[i]);
    }
  }

  /** A backup whose copies were faithful records the state it was taken in. */
  lemma FaithfulBackupRecords(before: Files, files: Files, sha: Content -> Text, m: Manifest)
    requires HoldsOriginals(before, files, m.items) && BackupsIntact(files, sha, m)
    ensures RecordsState(before, sha, m)
  {
    forall i | 0 <= i < |m.items|
      ensures m.items[i].originalPath in before && m.items[i].sha256 == sha(before[m.items[i].originalPath])
    {
      assert HoldsOriginal(before, files, m.items[i]) && BackupIntact(files, sha, m.items[i]);
    }
  }

  /** Round trip: from whatever state `later` the originals have come to, a restore that reports
      all of them leaves each as it was when the snapshot was taken. */
  lemma RestoreReinstates(ws: Path, before: Files, later: Files, after: Files, sha: Content -> Text, m: Manifest)
    requires Collisionless(sha) && RecordsState(before, sha, m)
    requires RestoreReport(ws, later, after, sha, m, Originals(m))
    requires OutsideSafekeep(ws, Originals(m))
    ensures forall i :: 0 <= i < |m.items| ==> AgreeAt(before, after, m.items[i].originalPath)
  {
    var n := |m.items|;
    forall i | 0 <= i < n
      ensures AgreeAt(before, after, m.items[i].originalPath)
    {
      var p := m.items[i].originalPath;
      assert Originals(m)[i] == p;
      AreasApart(ws, p);
      assert p in FirstOriginals(m, n);
      assert HoldsRecorded(after, sha, m, n, p);
      var j :| 0 <= j < n && RecordedAt(after, sha, m.items[j], p);
      assert sha(after[p]) == sha(before[p]);
    }
  }

  ghost predicate DistinctOriginals(m: Manifest) {
    forall i, j :: 0 <= i < j < |m.items| ==> m.items[i].originalPath != m.items[j].originalPath
  }

  /** A restore that reports every item puts the originals back exactly when each recorded digest is
      the digest of what the original held. */
  lemma RestoreReinstatesIff(ws: Path, before: Files, later: Files, after: Files, sha: Content -> Text, m: Manifest)
    requires Collisionless(sha) && OutsideSafekeep(ws, Originals(m)) && DistinctOriginals(m)
    requires RestoreReport(ws, later, after, sha, m, Originals(m))
    ensures (forall i :: 0 <= i < |m.items| ==> AgreeAt(before, after, m.items[i].originalPath)) <==>
            RecordsState(before, sha, m)
  {
    if RecordsState(before, sha, m) {
      RestoreReinstates(ws, before, later, after, sha, m);
    }
    if forall i :: 0 <= i < |m.items| ==> AgreeAt(before, after, m.items[i].originalPath) {
      forall i | 0 <= i < |m.items|
        ensures m.items[i].originalPath in before && m.items[i].sha256 == sha(before[m.items[i].originalPath])
      {
        RestoredContent(ws, later, after, sha, m, i);
        assert AgreeAt(before, after, m.items[i].originalPath);
      }
    }
  }

  /** After such a restore each original holds the content recorded for it. */
  lemma RestoredContent(ws: Path, later: Files, after: Files, sha: Content -> Text, m: Manifest, i: nat)
    requires OutsideSafekeep(ws, Originals(m)) && DistinctOriginals(m) && i < |m.items|
    requires RestoreReport(ws, later, after, sha, m, Originals(m))
    ensures RecordedAt(after, sha, m.items[i], m.items[i].originalPath)
  {
    var p, n := m.items[i].originalPath, |m.items|;
    assert Originals(m)[i] == p;
    AreasApart(ws, p);
    assert p in FirstOriginals(m, n) && HoldsRecorded(after, sha, m, n, p);
    var j :| 0 <= j < n && RecordedAt(after, sha, m.items[j], p);
    assert j == i;
  }

  /** Faithful copies are needed: the digest recorded is the copy's.  A backup whose one copy was
      wrong is, for every file and every snapshot, one the backup code can leave: it meets the whole
      contract of a successful backup and every check of restore, which then puts the wrong bytes
      in place. */
  lemma CorruptBackupUndetected(h: Text -> Text, sha: Content -> Text, ws: Path, ids: SnapshotIds,
                                commandId: Text, intent: Text, mutationKind: Text, item: PlanItem, good: Content, bad: Content)
    returns (m: Manifest, before: Files, backed: Files, after: Files)
    requires good != bad && !InSafekeep(ws, item.originalPath)
    ensures before == map[item.originalPath := good]
    ensures BackupMade(before, backed, sha, h, ws, ids, commandId, intent, mutationKind, [item], m)
    ensures Restorable(backed, sha, h, ws, m)
    ensures RestoreReport(ws, backed, after, sha, m, Originals(m))
    ensures item.originalPath in after && after[item.originalPath] == bad
  {
    var p, dir := item.originalPath, SnapshotDir(ws, ids.ymd, ids.snapshotId);
    var b := BackupPath(dir, 0, p);
    var it := ManifestItem(p, b, sha(bad), item.size, item.mtimeMs, item.existsBefore);
    m := Sealed(h, Draft(ids, commandId, intent, mutationKind, [it]));
    before := map[p := good];
    backed := map[p := good, b := bad, ManifestPath(dir) := Document(m)];
    BackupIsNoManifest(ws, ids.ymd, ids.snapshotId, 0, p);
    ManifestPathIs(ws, ids.ymd, ids.snapshotId);
    CorruptBackupMade(h, sha, ws, ids, commandId, intent, mutationKind, item, good, bad, m, backed);
    BackupChecksOut(before, backed, sha, h, ws, ids, commandId, intent, mutationKind, [item], m);
    assert PlannedPaths([item]) == [p];
    BackupRestorable(backed, sha, h, ws, ids, [item], m);
    after := backed[p := bad];
    assert FirstOriginals(m, 0) == {};
    assert RestoredPrefix(backed, backed, sha, m, 0);
    OneMoreRestored(backed, backed, after, sha, m, 0);
    assert Originals(m)[..1] == Originals(m);
    ReportFromItems(ws, backed, backed, after, after, sha, m, Originals(m));
  }

  lemma CorruptBackupMade(h: Text -> Text, sha: Content -> Text, ws: Path, ids: SnapshotIds,
                          commandId: Text, intent: Text, mutationKind: Text, item: PlanItem, good: Content, bad: Content,
                          m: Manifest, backed: Files)
    requires var dir := SnapshotDir(ws, ids.ymd, ids.snapshotId);
             var b := BackupPath(dir, 0, item.originalPath);
             && m == Sealed(h, Draft(ids, commandId, intent, mutationKind,
                       [ManifestItem(item.originalPath, b, sha(bad), item.size, item.mtimeMs, item.existsBefore)]))
             && backed == map[item.originalPath := good, b := bad, ManifestPath(dir) := Document(m)]
    requires !InSafekeep(ws, item.originalPath)
    ensures BackupMade(map[item.originalPath := good], backed, sha, h, ws, ids, commandId, intent, mutationKind, [item], m)
  {
    var p, dir := item.originalPath, SnapshotDir(ws, ids.ymd, ids.snapshotId);
    var b := BackupPath(dir, 0, p);
    BackupIsNoManifest(ws, ids.ymd, ids.snapshotId, 0, p);
    ManifestPathIs(ws, ids.ymd, ids.snapshotId);
    assert Records(m.items[0], item, dir, 0) && BackupIntact(backed, sha, m.items[0]);
    assert dir.parts <= b.parts && dir.parts <= ManifestPath(dir).parts;
  }
}
