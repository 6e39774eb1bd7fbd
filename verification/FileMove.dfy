/** hex-executor-console-backend/src/fileMoveAtomic.ts: one file moved by rename, or by copy,
    verification and unlink when the rename fails.
 */
module FileMove {
  import opened Common
  import opened Texts
  import opened Disks

  /** The state after a move: the destination holds what the source held, the source is gone. */
  function Moved(files: Files, src: Path, dest: Path): Files
    requires src in files
  {
    (files - {src})[dest := files[src]]
  }

  /** What a move onto itself that reports success has done: nothing, or deleted the file. */
  ghost predicate StaysOrGoes(before: Files, after: Files, src: Path) {
    after == before || after == before - {src}
  }

  /** A verified copy of a file onto itself, followed by the unlink, deletes it. */
  lemma SelfCopyGoes(before: Files, cleared: Files, copied: Files, src: Path)
    requires cleared == before || cleared == before - {src}
    requires AgreeOutside(before, copied, {src})
    ensures copied - {src} == before - {src}
  {
    forall p
      ensures AgreeAt(copied - {src}, before - {src}, p)
    {
      if p != src {
        assert AgreeAt(before, copied, p);
      }
    }
  }

  /** Success is a completed move, on the rename and on the copy branch, whether or not copies can
      be trusted; failure never touches the source and takes two faults.  Nothing but source and
      destination changes.  A file moved onto itself stays, unless overwriting is allowed: then it
      is deleted first and the move fails.  By a fault it may be reported moved and yet be deleted. */
  method CommitFileMoveAtomic(disk: Disk, src: Path, dest: Path, overwrite: bool) returns (ok: bool)
    requires Collisionless(disk.sha)
    modifies disk`files, disk`faults
    ensures AgreeOutside(old(disk.files), disk.files, {src, dest})
    ensures ok && src != dest ==> src in old(disk.files) && disk.files == Moved(old(disk.files), src, dest)
    ensures !ok && src != dest ==> AgreeAt(old(disk.files), disk.files, src)
    ensures disk.faults <= old(disk.faults)
    ensures !ok && src != dest && src in old(disk.files) ==> disk.faults + 2 <= old(disk.faults)
    ensures ok && src == dest ==> src in old(disk.files) && StaysOrGoes(old(disk.files), disk.files, src)
    ensures src == dest && disk.faults == old(disk.faults) ==>
      if overwrite && src in old(disk.files) then !ok && disk.files == old(disk.files) - {src}
      else (ok <==> src in old(disk.files)) && disk.files == old(disk.files)
  {
    if overwrite {
      var _ := disk.Unlink(dest);
    }
    ok := disk.Rename(src, dest);
    if !ok {
      ok := CopyVerifyUnlink(disk, src, dest, overwrite);
    }
  }

  /** A copy that verifies, followed by the unlink of the source, is a move. */
  lemma VerifiedCopyMoves(before: Files, copied: Files, src: Path, dest: Path)
    requires AgreeOutside(before, copied, {dest}) && src != dest
    requires src in copied && dest in copied && copied[dest] == copied[src]
    ensures src in before && copied - {src} == Moved(before, src, dest)
  {
    assert AgreeAt(before, copied, src);
    forall p
      ensures AgreeAt(copied - {src}, Moved(before, src, dest), p)
    {
      if p != dest {
        assert AgreeAt(before, copied, p);
      }
    }
  }

  /** Up to the unlink of the source only the destination has changed. */
  lemma CopyAfterUnlink(before: Files, cleared: Files, copied: Files, src: Path, dest: Path)
    requires AgreeOutside(before, cleared, {dest}) && AgreeOutside(cleared, copied, {dest})
    ensures AgreeOutside(before, copied, {dest})
    ensures src != dest ==> AgreeAt(before, copied, src) && AgreeAt(cleared, copied, src)
  {
    forall p | p != dest
      ensures AgreeAt(before, copied, p)
    {
      assert AgreeAt(before, cleared, p) && AgreeAt(cleared, copied, p);
    }
  }

  method CopyVerifyUnlink(disk: Disk, src: Path, dest: Path, overwrite: bool) returns (ok: bool)
    requires Collisionless(disk.sha)
    modifies disk`files, disk`faults
    ensures AgreeOutside(old(disk.files), disk.files, {src, dest})
    ensures ok && src != dest ==> src in old(disk.files) && disk.files == Moved(old(disk.files), src, dest)
    ensures !ok && src != dest ==> AgreeAt(old(disk.files), disk.files, src)
    ensures disk.faults <= old(disk.faults)
    ensures !ok && src != dest && src in old(disk.files) ==> disk.faults < old(disk.faults)
    ensures ok && src == dest ==> src in old(disk.files) && StaysOrGoes(old(disk.files), disk.files, src)
    ensures src == dest && src !in old(disk.files) ==> !ok && disk.files == old(disk.files)
  {
    if overwrite {
      var _ := disk.Unlink(dest);
    }
    var srcHash := disk.HashFile(src);
    if srcHash.None? { return false; }
    var srcSize := disk.SizeOf(src);
    if srcSize.None? { return false; }
    ghost var cleared := disk.files;
    ok := CopyVerified(disk, src, dest, srcHash.value, srcSize.value);
    CopyAfterUnlink(old(disk.files), cleared, disk.files, src, dest);
    if !ok { return false; }
    if src != dest {
      VerifiedCopyMoves(old(disk.files), disk.files, src, dest);
    } else {
      SelfCopyGoes(old(disk.files), cleared, disk.files, src);
    }
    ok := disk.Unlink(src);
  }

  /** The copy and its check against the hash and size taken of the source. */
  method CopyVerified(disk: Disk, src: Path, dest: Path, srcHash: Text, srcSize: nat) returns (ok: bool)
    requires Collisionless(disk.sha)
    requires src in disk.files && srcHash == disk.sha(disk.files[src]) && srcSize == disk.size(disk.files[src])
    modifies disk`files, disk`faults
    ensures AgreeOutside(old(disk.files), disk.files, {dest})
    ensures ok ==> dest in disk.files && disk.files[dest] == old(disk.files)[src]
    ensures disk.faults <= old(disk.faults) && (!ok ==> disk.faults < old(disk.faults))
  {
    var copied := disk.CopyFile(src, dest);
    if !copied { return false; }
    var destHash := disk.HashFile(dest);
    if destHash.None? { return false; }
    var destSize := disk.SizeOf(dest);
    if destSize.None? { return false; }
    if srcHash != destHash.value || srcSize != destSize.value {
      var _ := disk.Unlink(dest);
      return false;
    }
    return true;
  }
}
