/** The file system as the mutation pipeline sees it: paths to contents, under operations that
    may fail.  Nothing but these operations changes it.
 */
module Disks {
  import opened Common
  import opened Texts

  /** An absolute path, as its components. */
  datatype Path = Path(parts: seq<Text>)

  datatype ManifestItem = ManifestItem(
    originalPath: Path,
    backupPath: Path,
    sha256: Text,
    size: nat,
    mtimeMs: int,
    existsBefore: bool)

  datatype Manifest = Manifest(
    restorePointId: Text,
    snapshotId: Text,
    commandId: Text,
    createdAt: Text,
    intent: Text,
    mutationKind: Text,
    items: seq<ManifestItem>,
    integritySha256: Option<Text>)

  /** A file holds a text that parses as a manifest, or any other bytes. */
  datatype Content = Document(manifest: Manifest) | Bytes(bytes: seq<bv8>)

  type Files = map<Path, Content>

  datatype Stat = Absent | Directory | File(size: nat, mtimeMs: int)

  /** Two states of the file system agree at `p`. */
  predicate AgreeAt(a: Files, b: Files, p: Path) {
    (p in a <==> p in b) && (p in a ==> a[p] == b[p])
  }

  ghost predicate AgreeOutside(a: Files, b: Files, changed: set<Path>) {
    forall p {:trigger p in a} {:trigger p in b} {:trigger AgreeAt(a, b, p)} :: p !in changed ==> AgreeAt(a, b, p)
  }

  /** File hashing, idealised like text hashing: no two contents share a digest. */
  ghost predicate Collisionless(sha: Content -> Text) {
    forall x, y :: sha(x) == sha(y) ==> x == y
  }

  function StatIn(files: Files, dirs: set<Path>, size: Content -> nat, mtime: Path -> int): Path -> Stat {
    p => if p in dirs then Directory else if p in files then File(size(files[p]), mtime(p)) else Absent
  }

  /** Operations fail for want of the file they need, or by a fault; a fault may also be a copy
      that is wrong though reported as done, unless the disk is `faithful`. */
  class Disk {
    var files: Files
    /** How many faults can still happen; any finite run meets some finite number of them. */
    var faults: nat
    /** How many entries have been appended to the audit log. */
    var audited: nat
    const sha: Content -> Text
    const size: Content -> nat
    const dirs: set<Path>
    const mtime: Path -> int
    /** Copies that report success have copied every byte. */
    const faithful: bool

    constructor (files: Files, faults: nat, sha: Content -> Text, size: Content -> nat, dirs: set<Path>, mtime: Path -> int, faithful: bool)
      ensures this.files == files && this.faults == faults && this.audited == 0 && this.sha == sha && this.size == size
      ensures this.dirs == dirs && this.mtime == mtime && this.faithful == faithful
    {
      this.files := files;
      this.faults := faults;
      this.audited := 0;
      this.sha := sha;
      this.size := size;
      this.dirs := dirs;
      this.mtime := mtime;
      this.faithful := faithful;
    }

    /** What `stat` answers in the present state. */
    function Stats(): Path -> Stat
      reads this
    {
      StatIn(files, dirs, size, mtime)
    }

    /** Whether a fault happens now. */
    method Fault() returns (fails: bool)
      modifies this`faults
      ensures faults == old(faults) - (if fails then 1 else 0)
    {
      fails := *;
      fails := fails && faults > 0;
      if fails {
        faults := faults - 1;
      }
    }

    method Access(p: Path) returns (ok: bool)
      modifies this`faults
      ensures ok ==> p in files
      ensures faults <= old(faults) && (!ok && p in files ==> faults < old(faults))
    {
      var fails := Fault();
      ok := !fails && p in files;
    }

    method HashFile(p: Path) returns (digest: Option<Text>)
      modifies this`faults
      ensures digest.Some? ==> p in files && digest.value == sha(files[p])
      ensures faults <= old(faults) && (digest.None? && p in files ==> faults < old(faults))
    {
      var fails := Fault();
      digest := if fails || p !in files then None else Some(sha(files[p]));
    }

    method SizeOf(p: Path) returns (bytes: Option<nat>)
      modifies this`faults
      ensures bytes.Some? ==> p in files && bytes.value == size(files[p])
      ensures faults <= old(faults) && (bytes.None? && p in files ==> faults < old(faults))
    {
      var fails := Fault();
      bytes := if fails || p !in files then None else Some(size(files[p]));
    }

    method Unlink(p: Path) returns (ok: bool)
      modifies this`files, this`faults
      ensures ok ==> p in old(files) && files == old(files) - {p}
      ensures !ok ==> files == old(files)
      ensures faults <= old(faults) && (!ok && p in old(files) ==> faults < old(faults))
    {
      var fails := Fault();
      ok := !fails && p in files;
      if ok {
        files := files - {p};
      }
    }

    method Rename(src: Path, dest: Path) returns (ok: bool)
      modifies this`files, this`faults
      ensures ok ==> src in old(files) && files == (old(files) - {src})[dest := old(files)[src]]
      ensures !ok ==> files == old(files)
      ensures faults <= old(faults) && (!ok && src in old(files) ==> faults < old(faults))
    {
      var fails := Fault();
      ok := !fails && src in files;
      if ok {
        files := (files - {src})[dest := files[src]];
      }
    }

    /** A copy that fails, or that is not faithful, may leave anything at its destination. */
    method CopyFile(src: Path, dest: Path) returns (ok: bool)
      modifies this`files, this`faults
      ensures AgreeOutside(old(files), files, {dest})
      ensures ok ==> src in old(files) && dest in files
      ensures ok && files[dest] != old(files)[src] ==> !faithful && faults < old(faults)
      ensures faults <= old(faults) && (!ok && src in old(files) ==> faults < old(faults))
    {
      var fails := Fault();
      if !fails {
        ok := src in files;
        if ok {
          files := files[dest := files[src]];
        }
        return;
      }
      ok := *;
      ok := ok && src in files && !faithful;
      var garbage: Content := *;
      var removed: bool := *;
      files := if removed && !ok then files - {dest} else files[dest := garbage];
    }

    method WriteFile(p: Path, c: Content) returns (ok: bool)
      modifies this`files, this`faults
      ensures AgreeOutside(old(files), files, {p})
      ensures ok ==> p in files && files[p] == c
      ensures faults <= old(faults) && (!ok ==> faults < old(faults))
    {
      var fails := Fault();
      ok := !fails;
      var garbage: Content := *;
      files := files[p := if ok then c else garbage];
    }
  }
}
