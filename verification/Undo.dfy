/** Pairs of commands of which the second takes back the first, and what no command changes. */
module Undo {
  import opened Common
  import opened Paths
  import opened Tree
  import opened Mutations
  import opened Effects

  // ----- mkdir and rmdir -----

  lemma {:induction false} DeletePut(node: Node, path: Path, entry: Node)
    requires path != [] && HasParent(node, path) && Lookup(node, path) == None
    ensures HasParent(Put(node, path, entry), path) && Delete(Put(node, path, entry), path) == node
    decreases |path|
  {
    if |path| > 1 {
      DeletePut(node.children[path[0]], path[1..], entry);
    } else {
      ChildLookup(node, path);
    }
  }

  lemma {:induction false} ChildLookup(node: Node, path: Path)
    requires node.DirNode? && |path| == 1
    ensures Lookup(node, path).Some? <==> path[0] in node.children
  {
    assert path[1..] == [];
  }

  /** The parent directory after an entry was put in it. */
  lemma {:induction false} ParentAfterPut(node: Directory, path: Path, entry: Node)
    requires path != [] && WalkTo(node, Front(path)).Ok? && HasParent(node, path)
    ensures Put(node, path, entry).DirNode?
    ensures var parent := WalkTo(node, Front(path)).value;
            WalkTo(Put(node, path, entry), Front(path))
                == Ok(DirNode(parent.children[Last(path) := entry], parent.attributes))
    decreases |path|
  {
    if |path| > 1 {
      assert Front(path)[1..] == Front(path[1..]) && Last(path[1..]) == Last(path);
      ParentAfterPut(node.children[path[0]], path[1..], entry);
    }
  }

  /** A directory just made can be removed by its maker, and then the state is as before. */
  lemma {:induction false} RemoveDirUndoesMakeDir(s: State, path: string, caller: Option<Caller>)
    requires Succeeds(s, MakeDirOp(path, caller))
    ensures Step(Step(s, MakeDirOp(path, caller)).0, RemoveDirOp(path, caller)) == (s, Ok(Unit))
  {
    var parts := Parts(path).value;
    var made: Directory := DirNode(map[], Ownership(caller, DIR_MODE));
    ParentFromWalk(s.root, parts);
    LookupFromParent(s.root, parts);
    ParentAfterPut(s.root, parts, made);
    DeletePut(s.root, parts, made);
  }

  // ----- Locks -----

  function WithHolder(locks: map<Path, LockState>, p: Path, mode: LockMode, l: string,
        h: Holder): map<Path, LockState> {
    var lock := if p in locks then locks[p] else LockState(mode, map[]);
    locks[p := lock.(holders := lock.holders[l := h])]
  }

  function WithoutHolder(locks: map<Path, LockState>, p: Path, l: string): map<Path, LockState>
    requires p in locks
  {
    var left := locks[p].holders - {l};
    if left == map[] then locks - {p} else locks[p := locks[p].(holders := left)]
  }

  lemma {:induction false} AcquireGrants(s: State, op: Op)
    requires op.AcquireLockOp? && Succeeds(s, op)
    ensures Target(op).Ok? && op.lease > 0.0 && ModeOf(op.mode).Some?
    ensures var c := CleanLocks(s.locks, Target(op).value, op.now);
            && (Target(op).value in c ==> op.lockId !in c[Target(op).value].holders)
            && Step(s, op).0.locks == WithHolder(c, Target(op).value, ModeOf(op.mode).value, op.lockId,
                                                 Holder(op.owner, op.now + op.lease))
    ensures Step(s, op).0 == s.(locks := Step(s, op).0.locks) && CommittedFile(s.root, Target(op).value).Ok?
  {
  }

  lemma {:induction false} HolderTakenBack(locks: map<Path, LockState>, p: Path, mode: LockMode, l: string, h: Holder)
    requires p in locks ==> l !in locks[p].holders && locks[p].holders != map[]
    ensures WithoutHolder(WithHolder(locks, p, mode, l, h), p, l) == locks
  {
    if p in locks {
      assert locks[p].holders[l := h] - {l} == locks[p].holders;
      assert locks[p := locks[p].(holders := locks[p].holders[l := h])][p := locks[p]] == locks;
    } else {
      assert map[][l := h] - {l} == map[];
      assert locks[p := LockState(mode, map[][l := h])] - {p} == locks;
    }
  }

  /** A holder that has not expired survives the cleaning, and nothing else is left to clean. */
  lemma {:induction false} CleanTwice(locks: map<Path, LockState>, p: Path, now: real, mode: LockMode, l: string,
        h: Holder)
    requires h.expires > now
    ensures var c := CleanLocks(locks, p, now);
            && (p in c ==> c[p].holders != map[])
            && CleanLocks(WithHolder(c, p, mode, l, h), p, now) == WithHolder(c, p, mode, l, h)
  {
    CleanLocksFacts(locks, p, now, p);
    var c := CleanLocks(locks, p, now);
    var granted := WithHolder(c, p, mode, l, h)[p].holders;
    assert LiveHolders(granted, now) == granted;
    assert l in granted;
  }

  /** Releasing a lock at once leaves the lock table as the acquisition found it, apart from
      holders already expired. */
  lemma {:induction false} ReleaseUndoesAcquire(s: State, op: Op)
    requires op.AcquireLockOp? && Succeeds(s, op)
    ensures Target(op).Ok?
    ensures var s' := Step(s, op).0;
            Step(s', ReleaseLockOp(op.path, op.lockId, op.now))
            == (s.(locks := CleanLocks(s.locks, Target(op).value, op.now)), Ok(Unit))
  {
    AcquireGrants(s, op);
    var p, c, mode := Target(op).value, CleanLocks(s.locks, Target(op).value, op.now), ModeOf(op.mode).value;
    var h := Holder(op.owner, op.now + op.lease);
    CleanTwice(s.locks, p, op.now, mode, op.lockId, h);
    HolderTakenBack(c, p, mode, op.lockId, h);
    ReleaseTakesBack(Step(s, op).0, op.path, op.lockId, op.now);
  }

  lemma {:induction false} ReleaseTakesBack(s: State, path: string, l: string, now: real)
    requires Parts(path).Ok? && CommittedFile(s.root, Parts(path).value).Ok?
    requires CleanLocks(s.locks, Parts(path).value, now) == s.locks
    requires Parts(path).value in s.locks && l in s.locks[Parts(path).value].holders
    ensures Step(s, ReleaseLockOp(path, l, now))
              == (s.(locks := WithoutHolder(s.locks, Parts(path).value, l)), Ok(Unit))
  {
  }

  // ----- Writes -----

  lemma {:induction false} CleanWritesTwice(writes: map<string, Reservation>, now: real, w: string, r: Reservation)
    requires r.expires > now && w !in CleanWrites(writes, now)
    ensures CleanWrites(CleanWrites(writes, now)[w := r], now) == CleanWrites(writes, now)[w := r]
    ensures CleanWrites(writes, now)[w := r] - {w} == CleanWrites(writes, now)
  {
  }

  lemma {:induction false} BegunState(s: State, op: Op)
    requires op.BeginWriteOp? && Succeeds(s, op)
    ensures Target(op).Ok? && op.writeId !in CleanWrites(s.writes, op.now) && op.writeId in Step(s, op).0.writes
    ensures var r := Step(s, op).0.writes[op.writeId];
            && r.path == Target(op).value && r.lockId == op.lockId && r.expires == op.now + op.lease
            && Step(s, op).0.writes == CleanWrites(s.writes, op.now)[op.writeId := r]
            && |r.slots| == |op.proposals| && forall k :: 0 <= k < |r.slots| ==>
                r.slots[k].blockId == op.proposals[k].id
  {
  }

  /** Aborting a write at once returns exactly the blocks proposed for it and leaves the
      reservations as the write found them, apart from those already expired. */
  lemma {:induction false} AbortUndoesBegin(s: State, op: Op)
    requires op.BeginWriteOp? && Succeeds(s, op) && op.lease > 0.0
    ensures Target(op).Ok?
    ensures var s' := Step(s, op).0;
            var abort := AbortWriteOp(op.path, op.writeId, op.lockId, op.now);
            && Step(s', abort).0 == s'.(writes := CleanWrites(s.writes, op.now))
            && Step(s', abort).1.Ok? && Step(s', abort).1.value.Aborted?
            && |Step(s', abort).1.value.reserved| == |op.proposals|
            && forall k :: 0 <= k < |op.proposals| ==> Step(s', abort).1.value.reserved[k].id == op.proposals[k].id
  {
    BegunState(s, op);
    CleanWritesTwice(s.writes, op.now, op.writeId, Step(s, op).0.writes[op.writeId]);
    AbortOfReservation(Step(s, op).0, op.path, op.writeId, op.lockId, op.now);
  }

  lemma {:induction false} AbortOfReservation(s: State, path: string, w: string, lockId: string, now: real)
    requires CleanWrites(s.writes, now) == s.writes && w in s.writes
    requires Parts(path) == Ok(s.writes[w].path) && s.writes[w].lockId == lockId
    ensures Step(s, AbortWriteOp(path, w, lockId, now))
            == (s.(writes := s.writes - {w}), Ok(Aborted(ReservedBlocks(s.writes[w].slots))))
  {
  }

  // ----- Uploads -----

  /** Aborting an upload at once succeeds for whoever began it, and no file is different from
      before, except that a stale upload it replaced stays gone. */
  lemma {:induction false} AbortUndoesUpload(s: State, op: Op, q: Path)
    requires op.BeginUploadOp? && Succeeds(s, op)
    ensures var s' := Step(s, op).0;
            var abort := AbortUploadOp(op.path, op.caller);
            && Step(s', abort).1 == Ok(Unit)
            && FileAt(Step(s', abort).0.root, q) == if Target(op) == Ok(q) then None else FileAt(s.root, q)
  {
    var s' := Step(s, op).0;
    var abort := AbortUploadOp(op.path, op.caller);
    StepFiles(s, op, q);
    BegunUploadIsThere(s, op);
    PendingCanBeAborted(s', abort);
    StepFiles(s', abort, q);
  }

  lemma {:induction false} BegunUploadIsThere(s: State, op: Op)
    requires op.BeginUploadOp? && Succeeds(s, op)
    ensures Target(op).Ok? && Target(op).value != []
    ensures FileAt(Step(s, op).0.root, Target(op).value) == FileAfter(s, op)
  {
    StepFiles(s, op, Target(op).value);
  }

  lemma {:induction false} ParentOfFile(node: Directory, path: Path)
    requires path != [] && Lookup(node, path).Some?
    ensures WalkTo(node, Front(path)).Ok?
    decreases |path|
  {
    if |path| > 1 {
      assert Front(path)[1..] == Front(path[1..]);
      assert node.children[path[0]].DirNode?;
      ParentOfFile(node.children[path[0]], path[1..]);
    }
  }

  lemma {:induction false} PendingCanBeAborted(s: State, abort: Op)
    requires abort.AbortUploadOp? && Target(abort).Ok? && Target(abort).value != []
    requires FileAt(s.root, Target(abort).value).Some?
    requires var file := FileAt(s.root, Target(abort).value).value;
             !file.committed && OwnerOrAdmin(file.attributes, abort.caller)
    ensures Step(s, abort).1 == Ok(Unit)
  {
    ParentOfFile(s.root, Target(abort).value);
    LookupFromParent(s.root, Target(abort).value);
  }

  // ----- Accounts -----

  /** No command takes an account away, nor changes its groups or who is an administrator;
      only the password of the one named can change. */
  lemma {:induction false} AccountsStep(s: State, op: Op, name: string)
    requires name in s.users
    ensures name in Step(s, op).0.users
    ensures var before, after := s.users[name], Step(s, op).0.users[name];
            && after.groups == before.groups && after.isAdmin == before.isAdmin
            && (!(op.ChangePasswordOp? && op.username == name) ==> after == before)
  {
    if OnlyTouchesTree(op) {
      FrameOfTreeCommands(s, op);
    }
  }

  lemma {:induction false} AccountsRun(s: State, ops: seq<Op>, name: string)
    requires name in s.users
    ensures name in Run(s, ops).users
    ensures Run(s, ops).users[name].groups == s.users[name].groups
    ensures Run(s, ops).users[name].isAdmin == s.users[name].isAdmin
    decreases |ops|
  {
    if ops != [] {
      AccountsStep(s, ops[0], name);
      AccountsRun(Step(s, ops[0]).0, ops[1..], name);
    }
  }
}
