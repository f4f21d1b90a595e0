/** Who may do what: every command that succeeds for an authenticated caller was allowed by
    the permissions in force, so a stranger to a file cannot change it. */
module Permissions {
  import opened Common
  import opened Paths
  import opened Tree
  import opened Mutations
  import opened Effects

  // ----- The bits -----

  /** Exclusive classes: two modes that agree on the caller's own digit decide alike, whatever
      the other digits grant. */
  lemma {:induction false} OnlyTheOwnClassMatters(attributes: Attributes, mode: int, c: Caller, want: int)
    requires want == READ || want == WRITE
    requires DigitOf(mode, ClassOf(attributes, c)) == DigitOf(attributes.mode, ClassOf(attributes, c))
    ensures Allows(attributes.(mode := mode), Some(c), want) <==> Allows(attributes, Some(c), want)
  {
  }

  /** What a digit grants: reading from 4 up, writing when the digit is 2, 3, 6 or 7. */
  lemma {:induction false} WhatADigitGrants(attributes: Attributes, c: Caller)
    requires !c.isAdmin && 0 <= attributes.mode <= MAX_MODE
    ensures var d := DigitOf(attributes.mode, ClassOf(attributes, c));
            && (Allows(attributes, Some(c), READ) <==> d >= 4)
            && (Allows(attributes, Some(c), WRITE) <==> d == 2 || d == 3 || d == 6 || d == 7)
  {
    var d := DigitOf(attributes.mode, ClassOf(attributes, c));
    assert 0 <= d < 8;
  }

  // ----- Commands -----

  /** The caller a command carries. The commands of holders and of the cluster carry none. */
  function CallerOf(op: Op): Option<Caller> {
    match op
    case MakeDirOp(_, caller) => caller
    case RemoveDirOp(_, caller) => caller
    case RemoveFileOp(_, _, caller) => caller
    case BeginUploadOp(_, _, _, _, _, caller) => caller
    case ConfirmBlockOp(_, _, _, _, _, _, caller) => caller
    case CompleteUploadOp(_, caller) => caller
    case AbortUploadOp(_, caller) => caller
    case AcquireLockOp(_, _, _, _, _, _, caller) => caller
    case BeginWriteOp(_, _, _, _, _, _, _, _, _, _, caller) => caller
    case CommitWriteOp(_, _, _, _, _, _, caller) => caller
    case ChmodOp(_, _, caller) => caller
    case ChownOp(_, _, _, caller) => caller
    case _ => None
  }

  /** The last directory on a path that exists. */
  function DeepestDirectory(node: Directory, path: Path): Directory
    decreases |path|
  {
    if path != [] && path[0] in node.children && node.children[path[0]].DirNode?
    then DeepestDirectory(node.children[path[0]], path[1..]) else node
  }

  lemma {:induction false} GrowthNeedsWrite(node: Directory, path: Path, caller: Option<Caller>)
    requires Grow(node, path, caller).Ok?
    ensures Allows(DeepestDirectory(node, path).attributes, caller, WRITE)
    decreases |path|
  {
    if path != [] && path[0] in node.children {
      GrowthNeedsWrite(node.children[path[0]], path[1..], caller);
    }
  }

  lemma {:induction false} DeepestIsTheParent(node: Directory, path: Path)
    requires WalkTo(node, path).Ok?
    ensures DeepestDirectory(node, path) == WalkTo(node, path).value
    decreases |path|
  {
    if path != [] {
      DeepestIsTheParent(node.children[path[0]], path[1..]);
    }
  }

  ghost predicate MayWriteIn(s: State, path: Path, caller: Option<Caller>) {
    path != [] && WalkTo(s.root, Front(path)).Ok? && Allows(WalkTo(s.root, Front(path)).value.attributes, caller, WRITE)
  }

  ghost predicate OwnsUpload(s: State, path: Path, caller: Option<Caller>) {
    FileAt(s.root, path).Some? && !FileAt(s.root, path).value.committed
        && OwnerOrAdmin(FileAt(s.root, path).value.attributes, caller)
  }

  ghost predicate MayUse(s: State, path: Path, caller: Option<Caller>, want: int)
    requires want == READ || want == WRITE
  {
    CommittedFile(s.root, path).Ok? && Allows(CommittedFile(s.root, path).value.attributes, caller, want)
  }

  /** What a command needs, in terms of the state it finds. */
  ghost predicate Authorized(s: State, op: Op, path: Path) {
    match op
    case MakeDirOp(_, caller) => MayWriteIn(s, path, caller)
    case RemoveDirOp(_, caller) => MayWriteIn(s, path, caller)
    case RemoveFileOp(_, _, caller) => MayWriteIn(s, path, caller)
    case BeginUploadOp(_, _, _, _, _, caller) =>
      path != [] && Allows(DeepestDirectory(s.root, Front(path)).attributes, caller, WRITE)
    case ConfirmBlockOp(_, _, _, _, _, _, caller) => OwnsUpload(s, path, caller)
    case CompleteUploadOp(_, caller) => OwnsUpload(s, path, caller)
    case AbortUploadOp(_, caller) => OwnsUpload(s, path, caller)
    case AcquireLockOp(_, _, _, mode, _, _, caller) => MayUse(s, path, caller, if mode == "r" then READ else WRITE)
    case BeginWriteOp(_, _, _, _, _, _, _, _, _, _, caller) => MayUse(s, path, caller, WRITE)
    case CommitWriteOp(_, _, _, _, _, _, caller) => MayUse(s, path, caller, WRITE)
    case ChmodOp(_, _, caller) => VisibleNode(s.root, path).Ok?
        && OwnerOrAdmin(AttributesOf(VisibleNode(s.root, path).value), caller)
    case ChownOp(_, newOwner, newGroup, caller) =>
      && VisibleNode(s.root, path).Ok?
      && (caller.None? || caller.value.isAdmin
          || (newOwner == "" && newGroup in caller.value.groups
              && AttributesOf(VisibleNode(s.root, path).value).owner == caller.value.username))
    case _ => true
  }

  lemma {:induction false} NamespaceIsAuthorized(s: State, op: Op)
    requires Succeeds(s, op) && (op.MakeDirOp? || op.RemoveDirOp? || op.RemoveFileOp? || op.BeginUploadOp?)
    ensures Target(op).Ok? && Authorized(s, op, Target(op).value)
  {
    if op.BeginUploadOp? {
      GrowthNeedsWrite(s.root, Front(Target(op).value), op.caller);
    }
  }

  lemma {:induction false} UploadIsAuthorized(s: State, op: Op)
    requires Succeeds(s, op) && (op.ConfirmBlockOp? || op.CompleteUploadOp? || op.AbortUploadOp?)
    ensures Target(op).Ok? && Authorized(s, op, Target(op).value)
  {
    if op.AbortUploadOp? {
      LookupFromParent(s.root, Target(op).value);
    }
  }

  lemma {:induction false} AccessIsAuthorized(s: State, op: Op)
    requires Succeeds(s, op)
    requires (op.AcquireLockOp? || op.BeginWriteOp? || op.CommitWriteOp? || op.ChmodOp? || op.ChownOp?)
    ensures Target(op).Ok? && Authorized(s, op, Target(op).value)
  {
  }

  /** Every command that succeeds had the permissions it needs in the state it was applied
      to: a retry or a commit begun before a chmod is judged again. */
  lemma {:induction false} SuccessIsAuthorized(s: State, op: Op)
    requires Succeeds(s, op) && Target(op).Ok?
    ensures Authorized(s, op, Target(op).value)
  {
    if op.MakeDirOp? || op.RemoveDirOp? || op.RemoveFileOp? || op.BeginUploadOp? {
      NamespaceIsAuthorized(s, op);
    } else if op.ConfirmBlockOp? || op.CompleteUploadOp? || op.AbortUploadOp? {
      UploadIsAuthorized(s, op);
    } else if op.AcquireLockOp? || op.BeginWriteOp? || op.CommitWriteOp? || op.ChmodOp? || op.ChownOp? {
      AccessIsAuthorized(s, op);
    }
  }

  /** Neither the owner nor an administrator, with no `w` on the file nor on its directory. */
  ghost predicate Stranger(s: State, p: Path, c: Caller) {
    && FileAt(s.root, p).Some? && p != [] && !c.isAdmin
    && c.username != FileAt(s.root, p).value.attributes.owner
    && !Allows(FileAt(s.root, p).value.attributes, Some(c), WRITE)
    && WalkTo(s.root, Front(p)).Ok?
    && !Allows(WalkTo(s.root, Front(p)).value.attributes, Some(c), WRITE)
  }

  /** No command of a stranger changes a file in any way. */
  lemma {:induction false} StrangerChangesNothing(s: State, op: Op, p: Path, c: Caller)
    requires CallerOf(op) == Some(c) && Stranger(s, p, c)
    ensures FileAt(Step(s, op).0.root, p) == FileAt(s.root, p)
  {
    StepFiles(s, op, p);
    if Succeeds(s, op) && Target(op) == Ok(p) {
      SuccessIsAuthorized(s, op);
      DeepestIsTheParent(s.root, Front(p));
      assert Authorized(s, op, p);
    }
  }
}
