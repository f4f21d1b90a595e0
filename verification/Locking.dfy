/** Locks: what the table looks like in every reachable state, why a file does not
    change under a reader, why a reservation never lands on another incarnation of its
    path, and why no conflicting lock is granted before a lease ends. */
module Locking {
  import opened Common
  import opened Paths
  import opened Tree
  import opened Mutations
  import opened Effects
  import opened History

  /** Lock entries exist only for committed files, have a holder, and exactly one when exclusive. */
  ghost predicate LocksOk(s: State) {
    forall q :: q in s.locks ==> LockOk(s, q)
  }

  ghost predicate LockOk(s: State, q: Path)
    requires q in s.locks
  {
    && CommittedFile(s.root, q).Ok?
    && s.locks[q].holders != map[]
    && (s.locks[q].mode.Exclusive? ==>
          forall a, b :: a in s.locks[q].holders && b in s.locks[q].holders ==> a == b)
  }

  lemma {:induction false} SomeHolder(holders: map<string, Holder>)
    requires holders != map[]
    ensures exists l :: l in holders
  {
    assert holders.Keys != {};
    var l :| l in holders.Keys;
  }

  /** A locked file stays committed: removal needs an empty lock entry, and uploads never
      replace or abort a committed file. */
  lemma {:induction false} LockedFileSurvives(s: State, op: Op, q: Path)
    requires CommittedFile(s.root, q).Ok?
    ensures q in Step(s, op).0.locks ==> CommittedFile(Step(s, op).0.root, q).Ok?
  {
    StepFiles(s, op, q);
    if Succeeds(s, op) && Target(op) == Ok(q) {
      match op
      case BeginUploadOp(_, _, _, _, _, _) => UploadReplacesOnlyExpired(s, op);
      case AbortUploadOp(_, _) => RemovalFindsFile(s, op);
      case _ =>
    }
  }

  lemma {:induction false} GrantedLock(s: State, op: Op, q: Path)
    requires op.AcquireLockOp? && Succeeds(s, op) && Target(op) == Ok(q)
    ensures CommittedFile(s.root, q).Ok?
    ensures var s' := Step(s, op).0;
            && q in s'.locks && op.lockId in s'.locks[q].holders
            && (s'.locks[q].mode.Exclusive? ==>
                s'.locks[q].holders == map[op.lockId := Holder(op.owner, op.now + op.lease)])
  {
  }

  lemma {:induction false} LockEntriesHaveHolders(s: State, op: Op, q: Path)
    requires q in s.locks ==> s.locks[q].holders != map[]
    requires q in Step(s, op).0.locks
    ensures Step(s, op).0.locks[q].holders != map[]
  {
    var s' := Step(s, op).0;
    StepLocks(s, op, q);
    if Target(op) == Ok(q) {
      if op.AcquireLockOp? || op.RenewLockOp? || op.ReleaseLockOp? {
        CleanLocksFacts(s.locks, q, op.now, q);
        if op.RenewLockOp? {
          assert s'.locks[q].holders != map[] by {
            if Succeeds(s, op) {
              assert op.lockId in s'.locks[q].holders;
            }
          }
        } else if op.AcquireLockOp? && Succeeds(s, op) {
          GrantedLock(s, op, q);
        }
      } else {
        LocksOfTheRest(s, op);
        if op.RemoveFileOp? || op.BeginWriteOp? || op.CommitWriteOp? {
          CleanLocksFacts(s.locks, q, op.now, q);
        }
      }
    }
  }

  lemma {:induction false} LoneHolderStaysAlone(s: State, op: Op, s': State, q: Path)
    requires LocksOk(s) && LocksShrinkOrGrant(s, op, s', q)
    requires q in s'.locks && s'.locks[q].mode.Exclusive?
    requires forall l :: l in s'.locks[q].holders ==> !GrantsLock(s, op, q, l)
    ensures forall a, b :: a in s'.locks[q].holders && b in s'.locks[q].holders ==> a == b
  {
    forall a, b | a in s'.locks[q].holders && b in s'.locks[q].holders ensures a == b {
      assert a in HoldersAt(s', q) && b in HoldersAt(s', q);
      assert LockOk(s, q);
    }
  }

  lemma {:induction false} LockOkStep(s: State, op: Op, q: Path)
    requires LocksOk(s) && q in Step(s, op).0.locks
    ensures LockOk(Step(s, op).0, q)
  {
    assert q in s.locks ==> LockOk(s, q);
    LockEntriesHaveHolders(s, op, q);
    if op.AcquireLockOp? && Succeeds(s, op) && Target(op) == Ok(q) {
      GrantedLock(s, op, q);
    } else {
      StepLocks(s, op, q);
      KeptLockStaysAlone(s, op, Step(s, op).0, q);
    }
    LockedFileSurvives(s, op, q);
  }

  /** An entry in which no lock was granted was there, and keeps at most one exclusive holder. */
  lemma {:induction false} KeptLockStaysAlone(s: State, op: Op, s': State, q: Path)
    requires LocksOk(s) && q in s'.locks && s'.locks[q].holders != map[] && LocksShrinkOrGrant(s, op, s', q)
    requires forall l :: l in s'.locks[q].holders ==> !GrantsLock(s, op, q, l)
    ensures q in s.locks && CommittedFile(s.root, q).Ok?
    ensures s'.locks[q].mode.Exclusive? ==>
              forall a, b :: a in s'.locks[q].holders && b in s'.locks[q].holders ==> a == b
  {
    SomeHolder(s'.locks[q].holders);
    var l :| l in s'.locks[q].holders;
    assert l in HoldersAt(s', q);
    assert LockOk(s, q);
    if s'.locks[q].mode.Exclusive? {
      LoneHolderStaysAlone(s, op, s', q);
    }
  }

  lemma {:induction false} LocksOkAfter(s: State, op: Op)
    requires LocksOk(s)
    ensures LocksOk(Step(s, op).0)
  {
    forall q | q in Step(s, op).0.locks ensures LockOk(Step(s, op).0, q) {
      LockOkStep(s, op, q);
    }
  }

  /** The lock table is sound in every reachable state. */
  lemma {:induction false} LocksOkRun(s: State, ops: seq<Op>)
    requires LocksOk(s)
    ensures LocksOk(Run(s, ops))
    decreases |ops|
  {
    if ops != [] {
      LocksOkAfter(s, ops[0]);
      LocksOkRun(Step(s, ops[0]).0, ops[1..]);
    }
  }

  // ----- A file under a lock -----

  /** The same bytes: version, block ids, sizes and checksums; replicas may have moved. */
  ghost predicate SameData(f: FileRecord, g: FileRecord) {
    && f.version == g.version && f.blockSize == g.blockSize && |f.blocks| == |g.blocks|
    && forall i :: 0 <= i < |f.blocks| ==> g.blocks[i] == f.blocks[i].(addresses := g.blocks[i].addresses)
  }

  /** A successful commit through the lock `l` of file `p`. */
  predicate CommitsThrough(s: State, op: Op, p: Path, l: string) {
    op.CommitWriteOp? && Succeeds(s, op) && Target(op) == Ok(p) && op.lockId == l
  }

  lemma {:induction false} CommitHoldsTheLock(s: State, op: Op)
    requires op.CommitWriteOp? && Succeeds(s, op)
    ensures HoldsWriteLock(s.locks, Target(op).value, op.lockId)
    ensures HoldsWriteLock(Step(s, op).0.locks, Target(op).value, op.lockId)
    ensures CommittedFile(s.root, Target(op).value).Ok?
    ensures op.writeId in s.writes && s.writes[op.writeId].path == Target(op).value
    ensures s.writes[op.writeId].lockId == op.lockId
    ensures CommittedFile(s.root, Target(op).value).value.version == s.writes[op.writeId].baseVersion == op.baseVersion
    ensures ConfirmsReservation(op.confirmed, s.writes[op.writeId].slots)
    ensures Step(s, op).0.writes == CleanWrites(s.writes, op.now) - {op.writeId}
  {
    CleanLocksFacts(s.locks, Target(op).value, op.now, Target(op).value);
  }

  /** One command seen by a holder that is still in the table afterwards. */
  lemma {:induction false} HolderStep(s: State, op: Op, p: Path, l: string)
    requires LocksOk(s) && l in HoldersAt(Step(s, op).0, p)
    requires !(op.AcquireLockOp? && op.lockId == l)
    ensures l in HoldersAt(s, p) && Step(s, op).0.locks[p].mode == s.locks[p].mode
    ensures CommittedFile(s.root, p).Ok? && CommittedFile(Step(s, op).0.root, p).Ok?
    ensures var f, f' := CommittedFile(s.root, p).value, CommittedFile(Step(s, op).0.root, p).value;
            if CommitsThrough(s, op, p, l) then s.locks[p].mode.Exclusive? && f'.version == f.version + 1
            else SameData(f, f')
  {
    StepLocks(s, op, p);
    assert LockOk(s, p);
    LockedFileSurvives(s, op, p);
    StepFiles(s, op, p);
    if Succeeds(s, op) && Target(op) == Ok(p) {
      FileUnderLock(s, op, p, l);
    }
  }

  lemma {:induction false} FileUnderLock(s: State, op: Op, p: Path, l: string)
    requires Succeeds(s, op) && Target(op) == Ok(p) && CommittedFile(s.root, p).Ok?
    requires p in s.locks && LockOk(s, p) && l in s.locks[p].holders && FileAfter(s, op).Some?
    ensures var f, f' := CommittedFile(s.root, p).value, FileAfter(s, op).value;
            if CommitsThrough(s, op, p, l) then s.locks[p].mode.Exclusive? && f'.version == f.version + 1
            else SameData(f, f')
  {
    if op.CommitWriteOp? {
      CommitHoldsTheLock(s, op);
    } else if op.ConfirmBlockOp? || op.CompleteUploadOp? || op.BeginUploadOp? || op.AbortUploadOp? {
      UploadCommandsSpareCommitted(s, op);
    }
  }

  lemma {:induction false} UploadCommandsSpareCommitted(s: State, op: Op)
    requires op.ConfirmBlockOp? || op.CompleteUploadOp? || op.BeginUploadOp? || op.AbortUploadOp?
    requires Succeeds(s, op)
    ensures CommittedFile(s.root, Target(op).value).Err?
  {
    if op.BeginUploadOp? {
      UploadReplacesOnlyExpired(s, op);
    } else if op.AbortUploadOp? {
      RemovalFindsFile(s, op);
    }
  }

  /** Over a run with fresh lock ids: a holder found at the end was there all along; the
      version never went back, and as long as it is the same the bytes are the same. */
  lemma {:induction false} HolderRun(s: State, used: set<string>, ops: seq<Op>, p: Path, l: string)
    requires LocksOk(s) && FreshRun(used, ops) && l in used
    requires l in HoldersAt(Run(s, ops), p)
    ensures l in HoldersAt(s, p) && Run(s, ops).locks[p].mode == s.locks[p].mode
    ensures CommittedFile(s.root, p).Ok? && CommittedFile(Run(s, ops).root, p).Ok?
    ensures var f, f' := CommittedFile(s.root, p).value, CommittedFile(Run(s, ops).root, p).value;
            && f.version <= f'.version
            && (f.version == f'.version || s.locks[p].mode.Shared? ==> SameData(f, f'))
    decreases |ops|
  {
    if ops == [] {
      assert LockOk(s, p);
    } else {
      LocksOkAfter(s, ops[0]);
      HolderRun(Step(s, ops[0]).0, Learn(used, ops[0]), ops[1..], p, l);
      FreshOpIntroducesNothingUsed(used, ops[0], l);
      HolderStep(s, ops[0], p, l);
    }
  }

  /** Read stability: while a shared holder stays in the table, the block ids, sizes,
      checksums and version of its file are constant, whatever else is committed. */
  lemma {:induction false} ReadStability(s: State, used: set<string>, ops: seq<Op>, p: Path, l: string, i: nat)
    requires LocksOk(s) && FreshRun(used, ops) && l in used && i <= |ops|
    requires l in HoldersAt(Run(s, ops), p) && Run(s, ops).locks[p].mode.Shared?
    ensures CommittedFile(s.root, p).Ok? && CommittedFile(Run(s, ops[..i]).root, p).Ok?
    ensures SameData(CommittedFile(s.root, p).value, CommittedFile(Run(s, ops[..i]).root, p).value)
    ensures l in HoldersAt(Run(s, ops[..i]), p)
  {
    assert ops == ops[..i] + ops[i..];
    RunConcat(s, used, ops[..i], ops[i..]);
    LocksOkRun(s, ops[..i]);
    HolderRun(Run(s, ops[..i]), LearnAll(used, ops[..i]), ops[i..], p, l);
    HolderRun(s, used, ops[..i], p, l);
  }

  // ----- Reservations -----

  /** A reservation found after a command was there before, unless the command made it. */
  lemma {:induction false} StepWrites(s: State, op: Op, w: string)
    requires w in Step(s, op).0.writes
    ensures (w in s.writes && Step(s, op).0.writes[w] == s.writes[w])
            || (op.BeginWriteOp? && Succeeds(s, op) && op.writeId == w)
  {
  }

  lemma {:induction false} ReservationRun(s: State, used: set<string>, ops: seq<Op>, w: string)
    requires FreshRun(used, ops) && w in used && w in Run(s, ops).writes
    ensures w in s.writes && Run(s, ops).writes[w] == s.writes[w]
    decreases |ops|
  {
    if ops != [] {
      ReservationRun(Step(s, ops[0]).0, Learn(used, ops[0]), ops[1..], w);
      FreshOpIntroducesNothingUsed(used, ops[0], w);
      StepWrites(s, ops[0], w);
    }
  }

  lemma {:induction false} BegunReservation(s: State, op: Op)
    requires op.BeginWriteOp? && Succeeds(s, op)
    ensures Target(op).Ok? && CommittedFile(s.root, Target(op).value).Ok?
    ensures op.writeId in Step(s, op).0.writes
    ensures var r := Step(s, op).0.writes[op.writeId];
            r.path == Target(op).value && r.lockId == op.lockId
            && r.baseVersion == CommittedFile(s.root, r.path).value.version
    ensures Step(s, op).0.root == s.root
    ensures HoldsWriteLock(Step(s, op).0.locks, Target(op).value, op.lockId)
  {
  }

  /** Between a begin and the commit of the same base version, through the same lock. */
  lemma {:induction false} SameIncarnation(s: State, used: set<string>, mid: seq<Op>, p: Path, l: string, i: nat)
    requires LocksOk(s) && l in used && FreshRun(used, mid) && i <= |mid|
    requires CommittedFile(s.root, p).Ok? && l in HoldersAt(Run(s, mid), p)
    requires CommittedFile(Run(s, mid).root, p).Ok?
    requires CommittedFile(Run(s, mid).root, p).value.version == CommittedFile(s.root, p).value.version
    ensures CommittedFile(Run(s, mid[..i]).root, p).Ok?
    ensures SameData(CommittedFile(s.root, p).value, CommittedFile(Run(s, mid[..i]).root, p).value)
  {
    assert mid == mid[..i] + mid[i..];
    RunConcat(s, used, mid[..i], mid[i..]);
    LocksOkRun(s, mid[..i]);
    HolderRun(Run(s, mid[..i]), LearnAll(used, mid[..i]), mid[i..], p, l);
    HolderRun(s, used, mid[..i], p, l);
  }

  /** No ABA: if a write commits, then from its begin to its commit the path held one and
      the same incarnation of the file, with the same bytes in every state between,
      whatever the clocks of the leaders said. */
  lemma {:induction false} NoAba(s: State, used: set<string>, begin: Op, mid: seq<Op>, commit: Op, i: nat)
    requires LocksOk(s) && begin.BeginWriteOp? && Succeeds(s, begin)
    requires begin.lockId in used && FreshOp(used, begin) && FreshRun(Learn(used, begin), mid)
    requires commit.CommitWriteOp? && commit.writeId == begin.writeId
    requires Succeeds(Run(Step(s, begin).0, mid), commit) && i <= |mid|
    ensures Target(commit) == Target(begin) && commit.lockId == begin.lockId
    ensures CommittedFile(s.root, Target(begin).value).Ok?
    ensures CommittedFile(Run(Step(s, begin).0, mid[..i]).root, Target(begin).value).Ok?
    ensures SameData(CommittedFile(s.root, Target(begin).value).value,
                     CommittedFile(Run(Step(s, begin).0, mid[..i]).root, Target(begin).value).value)
  {
    BegunReservation(s, begin);
    LocksOkAfter(s, begin);
    assert NewIds(begin)[0] == begin.writeId;
    NoAbaAfterBegin(Step(s, begin).0, Learn(used, begin), begin.writeId, mid, commit, i);
  }

  lemma {:induction false} NoAbaAfterBegin(s: State, used: set<string>, w: string, mid: seq<Op>, commit: Op, i: nat)
    requires LocksOk(s) && w in s.writes && w in used && s.writes[w].lockId in used && FreshRun(used, mid)
    requires CommittedFile(s.root, s.writes[w].path).Ok?
    requires CommittedFile(s.root, s.writes[w].path).value.version == s.writes[w].baseVersion
    requires commit.CommitWriteOp? && commit.writeId == w && Succeeds(Run(s, mid), commit) && i <= |mid|
    ensures Target(commit) == Ok(s.writes[w].path) && commit.lockId == s.writes[w].lockId
    ensures CommittedFile(Run(s, mid[..i]).root, s.writes[w].path).Ok?
    ensures SameData(CommittedFile(s.root, s.writes[w].path).value,
                     CommittedFile(Run(s, mid[..i]).root, s.writes[w].path).value)
  {
    CommitHoldsTheLock(Run(s, mid), commit);
    ReservationRun(s, used, mid, w);
    SameIncarnation(s, used, mid, s.writes[w].path, s.writes[w].lockId, i);
  }

  // ----- Leases -----

  predicate Timed(op: Op) {
    op.RemoveFileOp? || op.BeginUploadOp? || op.ConfirmBlockOp? || op.AcquireLockOp? || op.RenewLockOp?
    || op.ReleaseLockOp? || op.BeginWriteOp? || op.CommitWriteOp? || op.AbortWriteOp?
  }

  /** The commands of a run all carry leader times up to `limit`, as they do when leader
      time is monotone and `limit` is the last one. */
  predicate TimesUpTo(ops: seq<Op>, limit: real) {
    forall i :: 0 <= i < |ops| && Timed(ops[i]) ==> ops[i].now <= limit
  }

  /** Commands that neither release the holder nor shorten its lease below `until`. */
  predicate LeavesLeaseAlone(op: Op, p: Path, l: string, until: real) {
    && !(op.ReleaseLockOp? && Target(op) == Ok(p) && op.lockId == l)
    && (op.RenewLockOp? && op.lockId == l ==> op.now + op.lease >= until)
  }

  /** A holder whose lease is not over at the command's time stays, unless released. */
  lemma {:induction false} UnexpiredHolderStays(s: State, op: Op, p: Path, l: string, until: real)
    requires LocksOk(s) && l in HoldersAt(s, p) && s.locks[p].holders[l].expires >= until
    requires Timed(op) ==> op.now < until
    requires LeavesLeaseAlone(op, p, l, until)
    ensures l in HoldersAt(Step(s, op).0, p) && Step(s, op).0.locks[p].holders[l].expires >= until
    ensures Step(s, op).0.locks[p].mode == s.locks[p].mode
  {
    StepLocks(s, op, p);
    if Target(op) == Ok(p) && Timed(op) {
      CleanLocksFacts(s.locks, p, op.now, p);
      if op.AcquireLockOp? {
        assert LockOk(s, p);
        HolderOutlivesAcquire(s, op, p, l);
      } else if op.RenewLockOp? {
        HolderOutlivesRenewal(s, op, p, l);
      } else if op.ReleaseLockOp? {
        HolderOutlivesRelease(s, op, p, l);
      } else {
        LocksOfTheRest(s, op);
      }
    } else if Target(op) == Ok(p) {
      LocksOfTheRest(s, op);
    }
  }

  lemma {:induction false} HolderOutlivesAcquire(s: State, op: Op, p: Path, l: string)
    requires op.AcquireLockOp? && Target(op) == Ok(p)
    requires l in HoldersAt(s, p) && op.now < s.locks[p].holders[l].expires
    ensures l in HoldersAt(Step(s, op).0, p)
    ensures Step(s, op).0.locks[p].holders[l] == s.locks[p].holders[l]
    ensures Step(s, op).0.locks[p].mode == s.locks[p].mode
  {
    CleanLocksFacts(s.locks, p, op.now, p);
  }

  lemma {:induction false} HolderOutlivesRenewal(s: State, op: Op, p: Path, l: string)
    requires op.RenewLockOp? && Target(op) == Ok(p)
    requires l in HoldersAt(s, p) && op.now < s.locks[p].holders[l].expires
    ensures l in HoldersAt(Step(s, op).0, p)
    ensures Step(s, op).0.locks[p].holders[l].expires ==
            if Succeeds(s, op) && op.lockId == l then op.now + op.lease else s.locks[p].holders[l].expires
    ensures Step(s, op).0.locks[p].mode == s.locks[p].mode
  {
    CleanLocksFacts(s.locks, p, op.now, p);
  }

  lemma {:induction false} HolderOutlivesRelease(s: State, op: Op, p: Path, l: string)
    requires op.ReleaseLockOp? && op.lockId != l && Target(op) == Ok(p)
    requires l in HoldersAt(s, p) && op.now < s.locks[p].holders[l].expires
    ensures l in HoldersAt(Step(s, op).0, p)
    ensures Step(s, op).0.locks[p].holders[l] == s.locks[p].holders[l]
    ensures Step(s, op).0.locks[p].mode == s.locks[p].mode
  {
    CleanLocksFacts(s.locks, p, op.now, p);
    if Succeeds(s, op) {
      assert l in CleanLocks(s.locks, p, op.now)[p].holders - {op.lockId};
    }
  }

  /** Exclusion: until a lease ends, and unless it is released, every attempt to take a
      conflicting lock on the file fails. */
  lemma {:induction false} LeaseExcludes(s: State, ops: seq<Op>, attempt: Op, p: Path, l: string)
    requires LocksOk(s) && l in HoldersAt(s, p)
    requires attempt.AcquireLockOp? && Target(attempt) == Ok(p)
    requires attempt.now < s.locks[p].holders[l].expires && TimesUpTo(ops, attempt.now)
    requires forall i :: 0 <= i < |ops| ==> LeavesLeaseAlone(ops[i], p, l, s.locks[p].holders[l].expires)
    requires s.locks[p].mode.Exclusive? || attempt.mode == "w"
    ensures !Succeeds(Run(s, ops), attempt)
    ensures l in HoldersAt(Run(s, ops), p)
  {
    LeaseRun(s, ops, p, l, s.locks[p].holders[l].expires, attempt.now);
    var end := Run(s, ops);
    CleanLocksFacts(end.locks, p, attempt.now, p);
  }

  lemma {:induction false} LeaseRun(s: State, ops: seq<Op>, p: Path, l: string, until: real, limit: real)
    requires LocksOk(s) && l in HoldersAt(s, p) && s.locks[p].holders[l].expires >= until
    requires limit < until && TimesUpTo(ops, limit)
    requires forall i :: 0 <= i < |ops| ==> LeavesLeaseAlone(ops[i], p, l, until)
    ensures l in HoldersAt(Run(s, ops), p) && Run(s, ops).locks[p].holders[l].expires >= until
    ensures Run(s, ops).locks[p].mode == s.locks[p].mode
    decreases |ops|
  {
    if ops != [] {
      UnexpiredHolderStays(s, ops[0], p, l, until);
      LocksOkAfter(s, ops[0]);
      LeaseRun(Step(s, ops[0]).0, ops[1..], p, l, until, limit);
    }
  }
}
