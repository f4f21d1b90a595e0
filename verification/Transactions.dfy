/** Failed commands leave nothing behind, and every write is resolved at most once. */
module Transactions {
  import opened Common
  import opened Paths
  import opened Tree
  import opened Mutations
  import opened Effects
  import opened History
  import opened Locking
  import opened Conservation

  // ----- Failures -----

  /** A refused upload has created no directory: whatever is in the way of the name was
      there already, so no directory was missing. */
  lemma {:induction false} RefusedUploadCreatesNothing(s: State, op: Op)
    requires op.BeginUploadOp? && !Succeeds(s, op)
    ensures Step(s, op).0 == s
  {
    var parsed := Parts(op.path);
    if parsed.Ok? && parsed.value != [] {
      var parts := parsed.value;
      var grown := Grow(s.root, Front(parts), op.caller);
      if grown.Ok? {
        GrowLeavesTreeOrEmptyDir(s.root, Front(parts), op.caller);
        GrowKeepsFiles(s.root, Front(parts), op.caller, []);
        LookupFromParent(grown.value, parts);
      }
    }
  }

  lemma {:induction false} RefusedTreeCommand(s: State, op: Op)
    requires OnlyTouchesTree(op) && !op.BeginUploadOp? && !Succeeds(s, op)
    ensures Step(s, op).0 == s
  {
  }

  lemma {:induction false} RefusedWriteCommand(s: State, op: Op)
    requires (op.BeginWriteOp? || op.CommitWriteOp? || op.AbortWriteOp?) && !Succeeds(s, op)
    ensures var s' := Step(s, op).0;
            s'.root == s.root && (s'.writes == s.writes || s'.writes == CleanWrites(s.writes, op.now))
  {
    if op.BeginWriteOp? {
      RefusedBeginWrite(s, op);
    } else if op.CommitWriteOp? {
      RefusedCommitWrite(s, op);
    }
  }

  lemma {:induction false} RefusedBeginWrite(s: State, op: Op)
    requires op.BeginWriteOp? && !Succeeds(s, op)
    ensures var s' := Step(s, op).0;
            s'.root == s.root && (s'.writes == s.writes || s'.writes == CleanWrites(s.writes, op.now))
  {
  }

  lemma {:induction false} RefusedCommitWrite(s: State, op: Op)
    requires op.CommitWriteOp? && !Succeeds(s, op)
    ensures var s' := Step(s, op).0;
            s'.root == s.root && (s'.writes == s.writes || s'.writes == CleanWrites(s.writes, op.now))
  {
  }

  lemma {:induction false} RefusedLockCommand(s: State, op: Op)
    requires op.AcquireLockOp? || op.RenewLockOp? || op.ReleaseLockOp? || op.RemoveFileOp?
    requires !Succeeds(s, op)
    ensures var s' := Step(s, op).0;
            && s'.root == s.root && s'.writes == s.writes
            && (s'.locks == s.locks || (Target(op).Ok? && s'.locks == CleanLocks(s.locks, Target(op).value, op.now)))
  {
  }

  /** For all 18 commands: an error leaves tree, users, locks and reservations as they
      were, except that entries expired at the command's time may have been dropped. */
  lemma {:induction false} FailureIsAtomic(s: State, op: Op)
    requires !Succeeds(s, op)
    ensures var s' := Step(s, op).0;
            && s'.root == s.root && s'.users == s.users
            && (s'.locks == s.locks
                || (Timed(op) && Target(op).Ok? && s'.locks == CleanLocks(s.locks, Target(op).value, op.now)))
            && (s'.writes == s.writes || (Timed(op) && s'.writes == CleanWrites(s.writes, op.now)))
  {
    if op.BeginUploadOp? {
      RefusedUploadCreatesNothing(s, op);
    } else if OnlyTouchesTree(op) {
      RefusedTreeCommand(s, op);
    } else if op.BeginWriteOp? || op.CommitWriteOp? || op.AbortWriteOp? {
      RefusedWriteCommand(s, op);
      LocksOfTheRest(s, op);
    } else if op.AcquireLockOp? || op.RenewLockOp? || op.ReleaseLockOp? || op.RemoveFileOp? {
      RefusedLockCommand(s, op);
    }
  }

  // ----- Writes are resolved once -----

  /** A commit that publishes the write, or an abort that hands its blocks back. */
  predicate Resolves(s: State, op: Op, w: string) {
    && Succeeds(s, op)
    && ((op.CommitWriteOp? && op.writeId == w)
        || (op.AbortWriteOp? && op.writeId == w && Step(s, op).1.value != Aborted([])))
  }

  lemma {:induction false} ResolvingEndsTheReservation(s: State, op: Op, w: string)
    requires Resolves(s, op, w)
    ensures w in s.writes && w !in Step(s, op).0.writes
  {
    if op.CommitWriteOp? {
      CommitHoldsTheLock(s, op);
    }
  }

  lemma {:induction false} ResolvedStaysGone(s: State, used: set<string>, first: Op, mid: seq<Op>, w: string)
    requires Sound(s, used) && FreshOp(used, first) && FreshRun(Learn(used, first), mid) && Resolves(s, first, w)
    ensures w !in Run(Step(s, first).0, mid).writes
  {
    ResolvingEndsTheReservation(s, first, w);
    if w in Run(Step(s, first).0, mid).writes {
      ReservationRun(Step(s, first).0, Learn(used, first), mid, w);
    }
  }

  /** For each write id, at most one of "a commit published it" and "an abort returned its
      blocks" ever happens, over any run that follows. */
  lemma {:induction false} ResolvedAtMostOnce(s: State, used: set<string>, first: Op, mid: seq<Op>, second: Op,
        w: string)
    requires Sound(s, used) && FreshOp(used, first) && FreshRun(Learn(used, first), mid)
    requires Resolves(s, first, w)
    ensures !Resolves(Run(Step(s, first).0, mid), second, w)
  {
    ResolvedStaysGone(s, used, first, mid, w);
    if Resolves(Run(Step(s, first).0, mid), second, w) {
      ResolvingEndsTheReservation(Run(Step(s, first).0, mid), second, w);
    }
  }

  /** An abort sent after a commit whose outcome the client never learned changes no
      file, and gives back no block to delete. */
  lemma {:induction false} AbortAfterCommitIsHarmless(s: State, used: set<string>, commit: Op, mid: seq<Op>, abort: Op)
    requires Sound(s, used) && FreshOp(used, commit) && FreshRun(Learn(used, commit), mid)
    requires commit.CommitWriteOp? && Succeeds(s, commit)
    requires abort.AbortWriteOp? && abort.writeId == commit.writeId && Target(abort).Ok?
    ensures var s2 := Run(Step(s, commit).0, mid);
            Step(s2, abort).1 == Ok(Aborted([])) && Step(s2, abort).0.root == s2.root
  {
    ResolvedStaysGone(s, used, commit, mid, commit.writeId);
    AbortOfTheGone(Run(Step(s, commit).0, mid), abort);
  }

  lemma {:induction false} AbortOfTheGone(s: State, op: Op)
    requires op.AbortWriteOp? && Target(op).Ok? && op.writeId !in s.writes
    ensures Step(s, op).1 == Ok(Aborted([])) && Step(s, op).0.root == s.root
  {
  }

  // ----- Versions -----

  predicate Removes(s: State, op: Op, p: Path) {
    op.RemoveFileOp? && Succeeds(s, op) && Target(op) == Ok(p)
  }

  /** A committed file keeps its incarnation until it is removed; its version never falls. */
  lemma {:induction false} VersionStep(s: State, op: Op, p: Path)
    requires CommittedFile(s.root, p).Ok? && !Removes(s, op, p)
    ensures CommittedFile(Step(s, op).0.root, p).Ok?
    ensures CommittedFile(Step(s, op).0.root, p).value.version ==
            CommittedFile(s.root, p).value.version
                + (if op.CommitWriteOp? && Succeeds(s, op) && Target(op) == Ok(p) then 1 else 0)
  {
    StepFiles(s, op, p);
    if Succeeds(s, op) && Target(op) == Ok(p) {
      if op.ConfirmBlockOp? || op.CompleteUploadOp? || op.BeginUploadOp? || op.AbortUploadOp? {
        UploadCommandsSpareCommitted(s, op);
      }
    }
  }

  lemma {:induction false} VersionRun(s: State, ops: seq<Op>, p: Path)
    requires CommittedFile(s.root, p).Ok?
    requires forall i :: 0 <= i < |ops| ==> !Removes(Run(s, ops[..i]), ops[i], p)
    ensures CommittedFile(Run(s, ops).root, p).Ok?
    ensures CommittedFile(Run(s, ops).root, p).value.version >= CommittedFile(s.root, p).value.version
    decreases |ops|
  {
    if ops != [] {
      assert Run(s, ops[..0]) == s;
      VersionStep(s, ops[0], p);
      var s' := Step(s, ops[0]).0;
      forall i | 0 <= i < |ops[1..]| ensures !Removes(Run(s', ops[1..][..i]), ops[1..][i], p) {
        assert ops[..i + 1][1..] == ops[1..][..i];
        assert Run(s, ops[..i + 1]) == Run(s', ops[1..][..i]);
        assert !Removes(Run(s, ops[..i + 1]), ops[i + 1], p);
      }
      VersionRun(s', ops[1..], p);
    }
  }

  /** At most one write per base version of an incarnation commits. */
  lemma {:induction false} OneCommitPerVersion(s: State, first: Op, mid: seq<Op>, second: Op, p: Path)
    requires first.CommitWriteOp? && second.CommitWriteOp? && first.baseVersion == second.baseVersion
    requires Succeeds(s, first) && Target(first) == Ok(p) && Target(second) == Ok(p)
    requires forall i :: 0 <= i < |mid| ==> !Removes(Run(Step(s, first).0, mid[..i]), mid[i], p)
    ensures !Succeeds(Run(Step(s, first).0, mid), second)
  {
    CommitHoldsTheLock(s, first);
    VersionStep(s, first, p);
    VersionRun(Step(s, first).0, mid, p);
    if Succeeds(Run(Step(s, first).0, mid), second) {
      CommitHoldsTheLock(Run(Step(s, first).0, mid), second);
    }
  }
}
