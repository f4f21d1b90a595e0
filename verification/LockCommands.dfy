/** The three lock commands from outside: when each succeeds, with which error it fails
    otherwise, and who holds the lock afterwards, in terms of the holders whose lease is not
    over. */
module LockCommands {
  import opened Common
  import opened Paths
  import opened Mutations
  import opened Entries

  /** The holders of the path whose lease ends after `now`. */
  function LiveAt(s: State, p: Path, now: real): map<string, Holder> {
    if p !in s.locks then map[]
    else map l | l in s.locks[p].holders && now < s.locks[p].holders[l].expires :: s.locks[p].holders[l]
  }

  /** The table once the others of the path are gone. */
  function OnlyLive(s: State, p: Path, now: real): map<Path, LockState> {
    if LiveAt(s, p, now) == map[] then s.locks - {p}
    else s.locks[p := LockState(s.locks[p].mode, LiveAt(s, p, now))]
  }

  lemma {:induction false} CleanedIsOnlyLive(s: State, p: Path, now: real)
    ensures CleanLocks(s.locks, p, now) == OnlyLive(s, p, now)
    ensures p in OnlyLive(s, p, now) <==> LiveAt(s, p, now) != map[]
    ensures p in OnlyLive(s, p, now) ==>
              p in s.locks && OnlyLive(s, p, now)[p] == LockState(s.locks[p].mode, LiveAt(s, p, now))
  {
    if p in s.locks {
      assert LiveHolders(s.locks[p].holders, now) == LiveAt(s, p, now);
      if LiveAt(s, p, now) != map[] {
        assert s.locks[p].(holders := LiveAt(s, p, now)) == LockState(s.locks[p].mode, LiveAt(s, p, now));
      }
    } else {
      assert s.locks - {p} == s.locks;
    }
  }

  /** A change at the path makes what was dropped there unimportant. */
  lemma {:induction false} ChangedAt(s: State, p: Path, now: real, state: LockState)
    ensures OnlyLive(s, p, now) - {p} == s.locks - {p}
    ensures OnlyLive(s, p, now)[p := state] == s.locks[p := state]
  {
  }

  /** What a command answers and what it leaves of the lock table. */
  ghost predicate Leaves(s: State, op: Op, answer: Result<Value>, locks: map<Path, LockState>) {
    Step(s, op) == (s.(locks := locks), answer)
  }

  // ----- Acquiring -----

  /** The mode is known, the lease positive, the file there and the caller allowed. */
  predicate MayAcquire(s: State, op: Op, p: Path)
    requires op.AcquireLockOp?
  {
    && (op.mode == "r" || op.mode == "w") && op.lease > 0.0 && Committed(s.root, p)
    && Permits(FileOf(s.root, p).attributes, op.caller, if op.mode == "r" then Reading else Changing)
  }

  /** Readers share; a writer needs to be alone; a lock id serves once at a time. */
  predicate Compatible(s: State, op: Op, p: Path)
    requires op.AcquireLockOp?
  {
    var live := LiveAt(s, p, op.now);
    live == map[] || (op.mode == "r" && s.locks[p].mode.Shared? && op.lockId !in live)
  }

  /** The live holders and the new one. */
  function Granted(s: State, op: Op, p: Path): LockState
    requires op.AcquireLockOp?
  {
    LockState(if op.mode == "r" then Shared else Exclusive,
              LiveAt(s, p, op.now)[op.lockId := Holder(op.owner, op.now + op.lease)])
  }

  function AcquireError(s: State, op: Op): Option<Error>
    requires op.AcquireLockOp?
  {
    if Parts(op.path).Err? then Some(InvalidPath)
    else
      var p := Parts(op.path).value;
      if (op.mode != "r" && op.mode != "w") || op.lease <= 0.0 then Some(InvalidPath)
      else if !Committed(s.root, p) then Some(PathNotFound)
      else if !MayAcquire(s, op, p) then Some(AccessDenied)
      else if !Compatible(s, op, p) then Some(Conflict)
      else None
  }

  /** Granted exactly in these cases: the live holders stay and the new one joins them. A
      refusal for a conflict only drops the holders whose lease is over. */
  lemma {:induction false} AcquireExactly(s: State, op: Op)
    requires op.AcquireLockOp?
    ensures var error := AcquireError(s, op);
            if error.None? then
              var p := Parts(op.path).value;
              Leaves(s, op, Ok(LockId(op.lockId)),
                     s.locks[p := Granted(s, op, p)])
            else if error == Some(Conflict) then Leaves(s, op, Err(Conflict), OnlyLive(s, Parts(op.path).value, op.now))
            else Leaves(s, op, Err(error.value), s.locks)
  {
    if Parts(op.path).Ok? {
      var p := Parts(op.path).value;
      CommittedFileIsCommitted(s.root, p);
      CleanedIsOnlyLive(s, p, op.now);
      if Committed(s.root, p) {
        AllowsIsPermits(FileOf(s.root, p).attributes, op.caller);
        ChangedAt(s, p, op.now, Granted(s, op, p));
      }
    }
  }

  // ----- Renewing and releasing -----

  function RenewError(s: State, op: Op): Option<Error>
    requires op.RenewLockOp?
  {
    if Parts(op.path).Err? || op.lease <= 0.0 then Some(InvalidPath)
    else if !Committed(s.root, Parts(op.path).value) then Some(PathNotFound)
    else if op.lockId !in LiveAt(s, Parts(op.path).value, op.now) then Some(Conflict)
    else None
  }

  /** The live holders, one of them with a new lease. */
  function Renewed(s: State, op: Op, p: Path): LockState
    requires op.RenewLockOp? && op.lockId in LiveAt(s, p, op.now)
  {
    var live := LiveAt(s, p, op.now);
    LockState(s.locks[p].mode, live[op.lockId := Holder(live[op.lockId].owner, op.now + op.lease)])
  }

  /** A lease is renewed exactly when it is not over; owner, mode and the others stay. */
  lemma {:induction false} RenewExactly(s: State, op: Op)
    requires op.RenewLockOp?
    ensures var error := RenewError(s, op);
            if error.None? then
              var p := Parts(op.path).value;
              Leaves(s, op, Ok(Unit), s.locks[p := Renewed(s, op, p)])
            else if error == Some(Conflict) then Leaves(s, op, Err(Conflict), OnlyLive(s, Parts(op.path).value, op.now))
            else Leaves(s, op, Err(error.value), s.locks)
  {
    if Parts(op.path).Ok? {
      var p := Parts(op.path).value;
      CommittedFileIsCommitted(s.root, p);
      CleanedIsOnlyLive(s, p, op.now);
      if op.lockId in LiveAt(s, p, op.now) {
        ChangedAt(s, p, op.now, Renewed(s, op, p));
      }
    }
  }

  function ReleaseError(s: State, op: Op): Option<Error>
    requires op.ReleaseLockOp?
  {
    if Parts(op.path).Err? then Some(InvalidPath)
    else if !Committed(s.root, Parts(op.path).value) then Some(PathNotFound)
    else
      var live := LiveAt(s, Parts(op.path).value, op.now);
      if live != map[] && op.lockId !in live then Some(Conflict) else None
  }

  /** A release succeeds exactly when the holder is live or nobody is; only it leaves. */
  lemma {:induction false} ReleaseExactly(s: State, op: Op)
    requires op.ReleaseLockOp?
    ensures var error := ReleaseError(s, op);
            if error.None? then
              var p := Parts(op.path).value;
              var left := LiveAt(s, p, op.now) - {op.lockId};
              Leaves(s, op, Ok(Unit),
                     if left == map[] then s.locks - {p} else s.locks[p := LockState(s.locks[p].mode, left)])
            else if error == Some(Conflict) then Leaves(s, op, Err(Conflict), OnlyLive(s, Parts(op.path).value, op.now))
            else Leaves(s, op, Err(error.value), s.locks)
  {
    if Parts(op.path).Ok? {
      var p := Parts(op.path).value;
      CommittedFileIsCommitted(s.root, p);
      CleanedIsOnlyLive(s, p, op.now);
      ChangedAt(s, p, op.now, LockState(if p in s.locks then s.locks[p].mode else Shared,
                                        LiveAt(s, p, op.now) - {op.lockId}));
      assert LiveAt(s, p, op.now) == map[] ==> LiveAt(s, p, op.now) - {op.lockId} == map[];
    }
  }
}
