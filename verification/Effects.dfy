/** What one command can do, stated path by path: which file it touches, what becomes
    of that file, and what it can do to the lock table. Every invariant is proved from
    these facts. */
module Effects {
  import opened Common
  import opened Paths
  import opened Tree
  import opened Mutations

  /** The one path a command may touch. */
  function Target(op: Op): Result<Path> {
    if op.CreateUserOp? || op.ChangePasswordOp? then Err(InvalidPath) else Parts(op.path)
  }

  predicate Succeeds(s: State, op: Op) {
    Step(s, op).1.Ok?
  }

  /** The file at the target after a successful command. */
  function FileAfter(s: State, op: Op): Option<FileRecord>
    requires Succeeds(s, op) && Target(op).Ok?
  {
    var file := FileAt(s.root, Target(op).value);
    match op
    case RemoveFileOp(_, _, _) => None
    case AbortUploadOp(_, _) => None
    case BeginUploadOp(_, placements, now, lease, blockSize, caller) =>
      Some(FileRecord(false, NewBlocks(placements), LeaseFrom(now, lease), 0, blockSize, Ownership(caller, FILE_MODE)))
    case CompleteUploadOp(_, _) => Some(file.value.(committed := true))
    case ConfirmBlockOp(_, blockId, checksum, size, now, lease, _) =>
      var i := IndexOfBlock(file.value.blocks, blockId);
      Some(file.value.(
        blocks := file.value.blocks[i := file.value.blocks[i].(checksum := checksum, size := size, confirmed := true)],
        leaseExpiresAt := if lease != 0.0 then now + lease else file.value.leaseExpiresAt))
    case UpdateReplicasOp(_, blockId, _, replacement) =>
      var i := IndexOfBlock(file.value.blocks, blockId);
      Some(file.value.(blocks := file.value.blocks[i := file.value.blocks[i].(addresses := replacement)]))
    case CommitWriteOp(_, writeId, _, _, confirmed, _, _) =>
      var reservation := s.writes[writeId];
      Some(file.value.(blocks := Publish(file.value.blocks, reservation.slots, confirmed).0,
                       version := file.value.version + 1, blockSize := reservation.blockSize))
    case ChmodOp(_, newMode, _) =>
      if file.None? then None else Some(file.value.(attributes := file.value.attributes.(mode := newMode)))
    case ChownOp(_, newOwner, newGroup, _) =>
      if file.None? then None
      else Some(file.value.(attributes := file.value.attributes.(
                  owner := if newOwner != "" then newOwner else file.value.attributes.owner,
                  group := if newGroup != "" then newGroup else file.value.attributes.group)))
    case _ => file
  }

  /** No command touches a file outside its target, and on the target it does what
      `FileAfter` says. A failed command touches no file at all. */
  lemma {:induction false} StepFiles(s: State, op: Op, q: Path)
    ensures FileAt(Step(s, op).0.root, q) ==
            if Succeeds(s, op) && Target(op) == Ok(q) then FileAfter(s, op) else FileAt(s.root, q)
  {
    match op
    case MakeDirOp(_, _) => FilesOfMakeDir(s, op, q);
    case RemoveDirOp(_, _) => FilesOfRemoveDir(s, op, q);
    case RemoveFileOp(_, _, _) => FilesOfRemoveFile(s, op, q);
    case AbortUploadOp(_, _) => FilesOfAbortUpload(s, op, q);
    case BeginUploadOp(_, _, _, _, _, _) => FilesOfBeginUpload(s, op, q);
    case ChmodOp(_, newMode, _) => FilesOfRelabel(s, op, q);
    case ChownOp(_, _, _, _) => FilesOfRelabel(s, op, q);
    case ConfirmBlockOp(_, _, _, _, _, _, _) => FilesOfConfirm(s, op, q);
    case CompleteUploadOp(_, _) => FilesOfComplete(s, op, q);
    case UpdateReplicasOp(_, _, _, _) => FilesOfUpdateReplicas(s, op, q);
    case CommitWriteOp(_, _, _, _, _, _, _) => FilesOfCommit(s, op, q);
    case _ =>
  }

  lemma {:induction false} FilesOfMakeDir(s: State, op: Op, q: Path)
    requires op.MakeDirOp?
    ensures FileAt(Step(s, op).0.root, q) == FileAt(s.root, q)
  {
    if Succeeds(s, op) {
      var parts := Parts(op.path).value;
      ParentFromWalk(s.root, parts);
      LookupFromParent(s.root, parts);
      FilesAfterEmptyDir(s.root, parts, DirNode(map[], Ownership(op.caller, DIR_MODE)), q);
    }
  }

  lemma {:induction false} FilesOfRemoveDir(s: State, op: Op, q: Path)
    requires op.RemoveDirOp?
    ensures FileAt(Step(s, op).0.root, q) == FileAt(s.root, q)
  {
    if Succeeds(s, op) {
      var parts := Parts(op.path).value;
      ParentFromWalk(s.root, parts);
      LookupFromParent(s.root, parts);
      FilesAfterEmptyDir(s.root, parts, Lookup(s.root, parts).value, q);
    }
  }

  lemma {:induction false} FilesOfRemoveFile(s: State, op: Op, q: Path)
    requires op.RemoveFileOp?
    ensures FileAt(Step(s, op).0.root, q) ==
            if Succeeds(s, op) && Target(op) == Ok(q) then None else FileAt(s.root, q)
  {
    if Succeeds(s, op) {
      var parts := Parts(op.path).value;
      ParentFromWalk(s.root, parts);
      LookupFromParent(s.root, parts);
      FilesAfterDeleteFile(s.root, parts, q);
    }
  }

  lemma {:induction false} FilesOfAbortUpload(s: State, op: Op, q: Path)
    requires op.AbortUploadOp?
    ensures FileAt(Step(s, op).0.root, q) ==
            if Succeeds(s, op) && Target(op) == Ok(q) then None else FileAt(s.root, q)
  {
    if Succeeds(s, op) {
      var parts := Parts(op.path).value;
      ParentFromWalk(s.root, parts);
      LookupFromParent(s.root, parts);
      FilesAfterDeleteFile(s.root, parts, q);
    }
  }

  lemma {:induction false} FilesOfBeginUpload(s: State, op: Op, q: Path)
    requires op.BeginUploadOp?
    ensures FileAt(Step(s, op).0.root, q) ==
            if Succeeds(s, op) && Target(op) == Ok(q) then FileAfter(s, op) else FileAt(s.root, q)
  {
    var parsed := Parts(op.path);
    if parsed.Ok? && parsed.value != [] {
      var parts := parsed.value;
      var grown := Grow(s.root, Front(parts), op.caller);
      if grown.Ok? {
        GrowKeepsFiles(s.root, Front(parts), op.caller, q);
        if Succeeds(s, op) {
          ParentFromWalk(grown.value, parts);
          FilesAfterPutFile(grown.value, parts, FileAfter(s, op).value, q);
        }
      }
    }
  }

  lemma {:induction false} FilesOfRelabel(s: State, op: Op, q: Path)
    requires op.ChmodOp? || op.ChownOp?
    ensures FileAt(Step(s, op).0.root, q) ==
            if Succeeds(s, op) && Target(op) == Ok(q) then FileAfter(s, op) else FileAt(s.root, q)
  {
    if Succeeds(s, op) {
      var parts := Parts(op.path).value;
      ParentFromLookup(s.root, parts);
      var old_ := AttributesOf(Lookup(s.root, parts).value);
      if op.ChmodOp? {
        FilesAfterRelabel(s.root, parts, old_.(mode := op.newMode), q);
      } else {
        FilesAfterRelabel(s.root, parts,
          old_.(owner := if op.newOwner != "" then op.newOwner else old_.owner,
                group := if op.newGroup != "" then op.newGroup else old_.group), q);
      }
    }
  }

  lemma {:induction false} FilesOfConfirm(s: State, op: Op, q: Path)
    requires op.ConfirmBlockOp?
    ensures FileAt(Step(s, op).0.root, q) ==
            if Succeeds(s, op) && Target(op) == Ok(q) then FileAfter(s, op) else FileAt(s.root, q)
  {
    if Succeeds(s, op) {
      var parts := Parts(op.path).value;
      ParentFromLookup(s.root, parts);
      FilesAfterPutFile(s.root, parts, FileAfter(s, op).value, q);
    }
  }

  lemma {:induction false} FilesOfComplete(s: State, op: Op, q: Path)
    requires op.CompleteUploadOp?
    ensures FileAt(Step(s, op).0.root, q) ==
            if Succeeds(s, op) && Target(op) == Ok(q) then FileAfter(s, op) else FileAt(s.root, q)
  {
    if Succeeds(s, op) {
      var parts := Parts(op.path).value;
      ParentFromLookup(s.root, parts);
      FilesAfterPutFile(s.root, parts, FileAfter(s, op).value, q);
    }
  }

  lemma {:induction false} FilesOfUpdateReplicas(s: State, op: Op, q: Path)
    requires op.UpdateReplicasOp?
    ensures FileAt(Step(s, op).0.root, q) ==
            if Succeeds(s, op) && Target(op) == Ok(q) then FileAfter(s, op) else FileAt(s.root, q)
  {
    if Succeeds(s, op) {
      var parts := Parts(op.path).value;
      ParentFromLookup(s.root, parts);
      FilesAfterPutFile(s.root, parts, FileAfter(s, op).value, q);
    }
  }

  lemma {:induction false} FilesOfCommit(s: State, op: Op, q: Path)
    requires op.CommitWriteOp?
    ensures FileAt(Step(s, op).0.root, q) ==
            if Succeeds(s, op) && Target(op) == Ok(q) then FileAfter(s, op) else FileAt(s.root, q)
  {
    if Succeeds(s, op) {
      var parts := Parts(op.path).value;
      ParentFromLookup(s.root, parts);
      FilesAfterPutFile(s.root, parts, FileAfter(s, op).value, q);
    }
  }

  /** What the upload of `BeginUpload` finds at its path, read before the directories grow. */
  lemma {:induction false} UploadReplacesOnlyExpired(s: State, op: Op)
    requires op.BeginUploadOp? && Succeeds(s, op)
    ensures var file := FileAt(s.root, Target(op).value);
            && (file.Some? ==> !file.value.committed && LeaseExpired(file.value, op.now))
            && Step(s, op).1.value == Uploading(op.placements, if file.Some? then file.value.blocks else [])
  {
    var parts := Target(op).value;
    GrowKeepsFiles(s.root, Front(parts), op.caller, parts);
  }

  /** What a removal finds at its path. */
  lemma {:induction false} RemovalFindsFile(s: State, op: Op)
    requires (op.RemoveFileOp? || op.AbortUploadOp?) && Succeeds(s, op)
    ensures var file := FileAt(s.root, Target(op).value);
            file.Some? && file.value.committed == op.RemoveFileOp?
            && (op.RemoveFileOp? ==> Step(s, op).1.value == Removed(file.value.blocks))
  {
    LookupFromParent(s.root, Target(op).value);
  }

  // ----- Locks -----

  function HoldersAt(s: State, q: Path): map<string, Holder> {
    if q in s.locks then s.locks[q].holders else map[]
  }

  /** Whether a command grants `lockId` on `q`. */
  predicate GrantsLock(s: State, op: Op, q: Path, lockId: string) {
    op.AcquireLockOp? && Succeeds(s, op) && Target(op) == Ok(q) && op.lockId == lockId
  }

  lemma {:induction false} CleanLocksFacts(locks: map<Path, LockState>, path: Path, now: real, q: Path)
    ensures q in CleanLocks(locks, path, now) ==> q in locks && CleanLocks(locks, path, now)[q].mode == locks[q].mode
    ensures q != path ==> (q in CleanLocks(locks, path, now) <==> q in locks)
    ensures q != path && q in locks ==> CleanLocks(locks, path, now)[q] == locks[q]
    ensures forall l :: q in CleanLocks(locks, path, now) && l in CleanLocks(locks, path, now)[q].holders ==>
              l in locks[q].holders && CleanLocks(locks, path, now)[q].holders[l] == locks[q].holders[l]
              && (q == path ==> locks[q].holders[l].expires > now)
    ensures forall l :: q in locks && l in locks[q].holders && locks[q].holders[l].expires > now ==>
              q in CleanLocks(locks, path, now) && l in CleanLocks(locks, path, now)[q].holders
    ensures path in CleanLocks(locks, path, now) ==> CleanLocks(locks, path, now)[path].holders != map[]
  {
    if path in locks {
      var live := LiveHolders(locks[path].holders, now);
      if q == path {
        forall l | l in locks[q].holders && locks[q].holders[l].expires > now ensures l in live && live != map[] {
          assert l in live;
        }
      }
    }
  }

  /** Locks elsewhere are untouched; on the target a holder can only have been there
      before, in the same mode, or be the one just granted. */
  ghost predicate LocksShrinkOrGrant(s: State, op: Op, s': State, q: Path) {
    && (Target(op) != Ok(q) ==> (q in s'.locks <==> q in s.locks) && (q in s.locks ==> s'.locks[q] == s.locks[q]))
    && forall l :: l in HoldersAt(s', q) ==>
         (l in HoldersAt(s, q) && s'.locks[q].mode == s.locks[q].mode) || GrantsLock(s, op, q, l)
  }

  lemma {:induction false} StepLocks(s: State, op: Op, q: Path)
    ensures LocksShrinkOrGrant(s, op, Step(s, op).0, q)
  {
    if op.AcquireLockOp? {
      LocksOfAcquire(s, op, q);
    } else if op.RenewLockOp? {
      LocksOfRenew(s, op, q);
    } else if op.ReleaseLockOp? {
      LocksOfRelease(s, op, q);
    } else {
      LocksOfTheRest(s, op);
      if Target(op).Ok? && (op.RemoveFileOp? || op.BeginWriteOp? || op.CommitWriteOp?) {
        CleanLocksFacts(s.locks, Target(op).value, op.now, q);
      }
    }
  }

  /** Besides the lock commands, three commands drop the expired holders of their target. */
  lemma {:induction false} LocksOfTheRest(s: State, op: Op)
    requires !op.AcquireLockOp? && !op.RenewLockOp? && !op.ReleaseLockOp?
    ensures Step(s, op).0.locks == s.locks
            || ((op.RemoveFileOp? || op.BeginWriteOp? || op.CommitWriteOp?)
                && Target(op).Ok? && Step(s, op).0.locks == CleanLocks(s.locks, Target(op).value, op.now))
  {
    if OnlyTouchesTree(op) {
      FrameOfTreeCommands(s, op);
    }
  }

  predicate OnlyTouchesTree(op: Op) {
    op.MakeDirOp? || op.RemoveDirOp? || op.BeginUploadOp? || op.ConfirmBlockOp? || op.CompleteUploadOp?
    || op.AbortUploadOp? || op.UpdateReplicasOp? || op.ChmodOp? || op.ChownOp?
  }

  lemma {:induction false} FrameOfTreeCommands(s: State, op: Op)
    requires OnlyTouchesTree(op)
    ensures var s' := Step(s, op).0;
            s'.locks == s.locks && s'.writes == s.writes && s'.users == s.users
  {
  }

  lemma {:induction false} LocksOfAcquire(s: State, op: Op, q: Path)
    requires op.AcquireLockOp?
    ensures LocksShrinkOrGrant(s, op, Step(s, op).0, q)
  {
    if Target(op).Ok? {
      CleanLocksFacts(s.locks, Target(op).value, op.now, q);
    }
  }

  lemma {:induction false} LocksOfRenew(s: State, op: Op, q: Path)
    requires op.RenewLockOp?
    ensures LocksShrinkOrGrant(s, op, Step(s, op).0, q)
  {
    if Target(op).Ok? {
      CleanLocksFacts(s.locks, Target(op).value, op.now, q);
    }
  }

  lemma {:induction false} LocksOfRelease(s: State, op: Op, q: Path)
    requires op.ReleaseLockOp?
    ensures LocksShrinkOrGrant(s, op, Step(s, op).0, q)
  {
    if Target(op).Ok? {
      CleanLocksFacts(s.locks, Target(op).value, op.now, q);
    }
  }
}
