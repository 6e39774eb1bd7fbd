/** Several snapshots side by side: hex-executor-console-backend/src/safekeep/backup.ts numbers a new
    snapshot directory by counting the ones it finds.
 */
module SnapshotHistory {
  import opened Texts
  import opened Disks
  import opened Snapshots

  // ----- An earlier snapshot and a later backup -----

  /** All there is of snapshot `m` lies in the directory `ids` name. */
  ghost predicate AtHome(files: Files, ws: Path, ids: SnapshotIds, m: Manifest) {
    var dir := SnapshotDir(ws, ids.ymd, ids.snapshotId);
    && (forall i :: 0 <= i < |m.items| ==> Under(m.items[i].backupPath, dir.parts))
    && (forall p :: Candidate(files, ws, m.restorePointId, p) ==> p == ManifestPath(dir))
  }

  lemma BackupAtHome(before: Files, files: Files, sha: Content -> Text, h: Text -> Text, ws: Path, ids: SnapshotIds,
                     commandId: Text, intent: Text, mutationKind: Text, plan: seq<PlanItem>, m: Manifest)
    requires BackupMade(before, files, sha, h, ws, ids, commandId, intent, mutationKind, plan, m)
    requires FreshId(before, ws, ids.restorePointId)
    ensures AtHome(files, ws, ids, m)
  {
    var dir := SnapshotDir(ws, ids.ymd, ids.snapshotId);
    forall i | 0 <= i < |m.items|
      ensures Under(m.items[i].backupPath, dir.parts)
    {
      assert Records(m.items[i], plan[i], dir, i);
    }
    forall p | Candidate(files, ws, m.restorePointId, p)
      ensures p == ManifestPath(dir)
    {
      assert p != ManifestPath(dir) ==> AgreeAt(before, files, p);
    }
  }

  predicate SameDir(a: SnapshotIds, b: SnapshotIds) {
    a.ymd == b.ymd && a.snapshotId == b.snapshotId
  }

  lemma DirsApart(ws: Path, a: SnapshotIds, b: SnapshotIds, p: Path)
    requires Under(p, SnapshotDir(ws, a.ymd, a.snapshotId).parts) && Under(p, SnapshotDir(ws, b.ymd, b.snapshotId).parts)
    ensures SameDir(a, b)
  {
    var d, e := SnapshotDir(ws, a.ymd, a.snapshotId).parts, SnapshotDir(ws, b.ymd, b.snapshotId).parts;
    var n := |ws.parts|;
    assert d == e;
    assert d[n + 2] == a.ymd && d[n + 3] == a.snapshotId && e[n + 2] == b.ymd && e[n + 3] == b.snapshotId;
  }

  /** An earlier snapshot outlives a later successful backup exactly when that one went to another
      directory. */
  lemma OutlivesIff(ws: Path, a: Files, b: Files, sha: Content -> Text, h: Text -> Text, ids: SnapshotIds, m: Manifest,
                    later: SnapshotIds, commandId: Text, intent: Text, mutationKind: Text, plan: seq<PlanItem>, made: Manifest)
    requires Restorable(a, sha, h, ws, m) && AtHome(a, ws, ids, m)
    requires BackupMade(a, b, sha, h, ws, later, commandId, intent, mutationKind, plan, made)
    requires later.restorePointId != m.restorePointId
    ensures Restorable(b, sha, h, ws, m) <==> !SameDir(ids, later)
  {
    OnlyStays(ws, a, b, sha, h, m, later, commandId, intent, mutationKind, plan, made);
    if SameDir(ids, later) {
      forall p | Candidate(b, ws, m.restorePointId, p)
        ensures Candidate(a, ws, m.restorePointId, p) && p == ManifestPath(SnapshotDir(ws, ids.ymd, ids.snapshotId))
      {
      }
    } else {
      var home := ManifestPath(SnapshotDir(ws, ids.ymd, ids.snapshotId));
      KeepsHome(ws, a, b, sha, h, ids, m, later, commandId, intent, mutationKind, plan, made);
      assert Candidate(b, ws, m.restorePointId, home) && b[home].manifest == m;
    }
  }

  /** The manifests with the earlier id are the ones there were, but for an overwritten one. */
  lemma OnlyStays(ws: Path, a: Files, b: Files, sha: Content -> Text, h: Text -> Text, m: Manifest,
                  later: SnapshotIds, commandId: Text, intent: Text, mutationKind: Text, plan: seq<PlanItem>, made: Manifest)
    requires OnlyManifest(a, ws, m) && later.restorePointId != m.restorePointId
    requires BackupMade(a, b, sha, h, ws, later, commandId, intent, mutationKind, plan, made)
    ensures OnlyManifest(b, ws, m)
    ensures forall p :: Candidate(b, ws, m.restorePointId, p) ==>
              Candidate(a, ws, m.restorePointId, p) && p != ManifestPath(SnapshotDir(ws, later.ymd, later.snapshotId))
  {
    var there := ManifestPath(SnapshotDir(ws, later.ymd, later.snapshotId));
    forall p | Candidate(b, ws, m.restorePointId, p)
      ensures Candidate(a, ws, m.restorePointId, p) && p != there && b[p] == a[p]
    {
      assert b[there].manifest.restorePointId == later.restorePointId;
      assert p != there ==> AgreeAt(a, b, p);
    }
    forall p | IsManifestPath(ws, p) && p in b && b[p].Document? && b[p].manifest.restorePointId == m.restorePointId
      ensures b[p].manifest == m
    {
      assert Candidate(b, ws, m.restorePointId, p);
    }
  }

  /** A backup elsewhere leaves the earlier directory alone. */
  lemma KeepsHome(ws: Path, a: Files, b: Files, sha: Content -> Text, h: Text -> Text, ids: SnapshotIds, m: Manifest,
                  later: SnapshotIds, commandId: Text, intent: Text, mutationKind: Text, plan: seq<PlanItem>, made: Manifest)
    requires Restorable(a, sha, h, ws, m) && AtHome(a, ws, ids, m) && !SameDir(ids, later)
    requires BackupMade(a, b, sha, h, ws, later, commandId, intent, mutationKind, plan, made)
    ensures BackupsIntact(b, sha, m)
    ensures var home := ManifestPath(SnapshotDir(ws, ids.ymd, ids.snapshotId));
            Candidate(a, ws, m.restorePointId, home) && a[home].manifest == m && AgreeAt(a, b, home)
  {
    var dir := SnapshotDir(ws, ids.ymd, ids.snapshotId);
    forall p | Under(p, dir.parts)
      ensures AgreeAt(a, b, p)
    {
      if Under(p, SnapshotDir(ws, later.ymd, later.snapshotId).parts) {
        DirsApart(ws, ids, later, p);
      }
    }
    forall i | 0 <= i < |m.items|
      ensures BackupIntact(b, sha, m.items[i])
    {
      assert BackupIntact(a, sha, m.items[i]) && AgreeAt(a, b, m.items[i].backupPath);
    }
    var p :| Candidate(a, ws, m.restorePointId, p) && a[p].manifest == m;
    assert p == ManifestPath(dir);
    assert Under(p, dir.parts);
  }

  // ----- The number of a new snapshot -----

  const PREFIX := Lit("snapshot-")

  function SnapshotName(k: nat): Text {
    PREFIX + Padded(k, 4)
  }

  /** The name is the prefix and the number in at least four digits. */
  lemma SnapshotNameShape(k: nat)
    ensures var digits := SnapshotName(k)[9..];
            && SnapshotName(k)[..9] == Lit("snapshot-") && AllOf(Digit, digits) && NumeralValue(digits) == k
            && |digits| == if k < 1000 then 4 else |Digits(k)|
  {
    assert SnapshotName(k)[9..] == Padded(k, 4);
    PaddedNumeral(k, 4);
    PadToWidth(Digits(k), 4);
    NoLeadingZero(k);
    NoLeadingZero(k / 10);
    NoLeadingZero(k / 10 / 10);
  }

  predicate IsSnapshotName(name: Text) {
    PREFIX <= name
  }

  /** One more than the entries of the day's directory that look like snapshots; a directory that
      cannot be read counts as empty. */
  function NextSnapshot(entries: set<Text>): nat {
    |set e | e in entries && IsSnapshotName(e)| + 1
  }

  lemma SnapshotNamesDistinct(i: nat, j: nat)
    requires SnapshotName(i) == SnapshotName(j)
    ensures i == j
  {
    assert SnapshotName(i)[|PREFIX|..] == Padded(i, 4) && SnapshotName(j)[|PREFIX|..] == Padded(j, 4);
    PaddedNumeral(i, 4);
    PaddedNumeral(j, 4);
  }

  function Names(numbers: set<nat>): set<Text> {
    set k | k in numbers :: SnapshotName(k)
  }

  lemma {:induction false} AsManyNames(numbers: set<nat>)
    ensures |Names(numbers)| == |numbers|
  {
    if numbers == {} {
      assert Names(numbers) == {};
    } else {
      var k :| k in numbers;
      var rest := numbers - {k};
      AsManyNames(rest);
      if SnapshotName(k) in Names(rest) {
        var j :| j in rest && SnapshotName(j) == SnapshotName(k);
        SnapshotNamesDistinct(j, k);
      }
      assert Names(numbers) == Names(rest) + {SnapshotName(k)};
    }
  }

  /** The numbers 1..n. */
  function UpTo(n: nat): (r: set<nat>)
    ensures |r| == n && forall k :: k in r <==> 1 <= k <= n
  {
    if n == 0 then {} else UpTo(n - 1) + {n}
  }

  /** With the snapshots 1 to `n` made, those of `deleted` removed by hand, and `strays` beginning like
      snapshots put there, the next backup of the day goes into an existing directory exactly when the
      number it counts to is that of a snapshot left or the name of a stray.  Without deletions and
      strays it never does. */
  lemma NextTakenIff(n: nat, deleted: set<nat>, strays: set<Text>, others: set<Text>)
    requires deleted <= UpTo(n) && forall e :: e in others ==> !IsSnapshotName(e)
    requires forall e :: e in strays ==> IsSnapshotName(e) && e !in Names(UpTo(n))
    ensures var entries := Names(UpTo(n) - deleted) + strays + others;
            var next := n - |deleted| + |strays| + 1;
            && NextSnapshot(entries) == next
            && (SnapshotName(next) in entries <==> (next <= n && next !in deleted) || SnapshotName(next) in strays)
  {
    var left := UpTo(n) - deleted;
    var entries := Names(left) + strays + others;
    AsManyNames(left);
    assert forall e :: e in strays ==> e !in Names(left);
    assert (set e | e in entries && IsSnapshotName(e)) == Names(left) + strays;
    assert |Names(left) + strays| == |Names(left)| + |strays|;
    assert |left| == n - |deleted|;
    var next := NextSnapshot(entries);
    assert IsSnapshotName(SnapshotName(next));
    NameTakenIff(left, next);
  }

  lemma NameTakenIff(numbers: set<nat>, k: nat)
    ensures SnapshotName(k) in Names(numbers) <==> k in numbers
  {
    if SnapshotName(k) in Names(numbers) {
      var j :| j in numbers && SnapshotName(j) == SnapshotName(k);
      SnapshotNamesDistinct(j, k);
    }
  }
}
