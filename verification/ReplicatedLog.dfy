/** The replicated log of the ControlNodes: the metadata state machine behind its table of
    outcomes, the keys under which its commands are applied, and the blocks that its
    callers delete after an answer. */
module ReplicatedLog {
  import opened Common
  import opened Mutations
  import opened History
  import opened Conservation
  import opened Deduplication
  import opened ControlNode

  /** Running one command: always an outcome, never an exception. `None` stands for a
      method that is not one of the 18 mutations. */
  function Execute(s: State, op: Option<Op>): Outcome {
    if op.None? then (s, Err(InvalidPath)) else Step(s, op.value)
  }

  const LOG: Machine<State, Option<Op>, Result<Value>> := Machine(INITIAL, Execute)

  type Command = Entry<Option<Op>>

  // ----- A caller receives only its own outcomes -----

  /** Who submits an entry. Commands of the cluster itself carry a key of their own:
      the fixed name of the first administrator's creation, or a hexadecimal UUID. */
  datatype Principal = User(name: string) | Cluster

  datatype Request = Request(principal: Principal, opId: string, op: Option<Op>)

  /** The key `_commit` builds. */
  function KeyOf(q: Request): string {
    match q.principal
    case User(name) => name + ":" + q.opId
    case Cluster => q.opId
  }

  ghost predicate WellNamed(q: Request) {
    match q.principal
    case User(name) => ValidName(name)
    case Cluster => ':' !in q.opId
  }

  lemma {:induction false} ValidNamesHaveNoColon(name: string)
    requires ValidName(name)
    ensures ':' !in name
  {
    forall i | 0 <= i < |name| ensures name[i] != ':' {}
  }

  lemma {:induction false} LongerNameDiffers(x: string, a: string, y: string, b: string)
    requires ':' !in y && |x| < |y|
    ensures x + ":" + a != y + ":" + b
  {
    assert (x + ":" + a)[|x|] == ':' && (y + ":" + b)[|x|] == y[|x|];
  }

  /** A key determines who asked and under which operation id. */
  lemma {:induction false} KeysAreInjective(a: Request, b: Request)
    requires WellNamed(a) && WellNamed(b) && KeyOf(a) == KeyOf(b)
    ensures a.principal == b.principal && a.opId == b.opId
  {
    if a.principal.User? {
      ValidNamesHaveNoColon(a.principal.name);
      assert KeyOf(a)[|a.principal.name|] == ':';
    }
    if b.principal.User? {
      ValidNamesHaveNoColon(b.principal.name);
      assert KeyOf(b)[|b.principal.name|] == ':';
    }
    if a.principal.User? && b.principal.User? {
      var x, y := a.principal.name, b.principal.name;
      if |x| != |y| {
        LongerNameDiffers(if |x| < |y| then x else y, if |x| < |y| then a.opId else b.opId,
                          if |x| < |y| then y else x, if |x| < |y| then b.opId else a.opId);
      }
      assert KeyOf(a)[..|x|] == x && KeyOf(b)[..|y|] == y;
      assert KeyOf(a)[|x| + 1..] == a.opId && KeyOf(b)[|y| + 1..] == b.opId;
    }
  }

  function Entries(qs: seq<Request>): (r: seq<Command>)
    ensures |r| == |qs| && forall i :: 0 <= i < |r| ==> r[i] == Entry(KeyOf(qs[i]), qs[i].op)
  {
    if qs == [] then [] else Entries(qs[..|qs| - 1]) + [Entry(KeyOf(qs[|qs| - 1]), qs[|qs| - 1].op)]
  }

  lemma {:induction false} ExecutedComesFromLog(es: seq<Command>, p: nat) returns (i: nat)
    requires p < |Executed(LOG, es)|
    ensures i < |es| && Executed(LOG, es)[p] == es[i]
  {
    var before := es[..|es| - 1];
    if p < |Executed(LOG, before)| {
      i := ExecutedComesFromLog(before, p);
    } else {
      i := |es| - 1;
    }
  }

  /** Whatever the log, the answer to a request is the outcome of executing a request of
      the same principal with the same operation id, no later than this one. */
  lemma {:induction false} OwnOutcomesOnly(qs: seq<Request>, j: nat) returns (i: nat, p: nat)
    requires j < |qs| && forall k :: 0 <= k < |qs| ==> WellNamed(qs[k])
    ensures i <= j && qs[i].principal == qs[j].principal && qs[i].opId == qs[j].opId
    ensures var ran := Executed(LOG, Entries(qs)[..j + 1]);
            p < |ran| && ran[p] == Entries(qs)[i] && Answer(LOG, Entries(qs), j) == OutcomeOf(LOG, ran, p)
  {
    var es := Entries(qs);
    p := AnswerWasExecuted(LOG, es, j);
    i := ExecutedComesFromLog(es[..j + 1], p);
    KeysAreInjective(qs[i], qs[j]);
  }

  // ----- Blocks deleted after an answer -----

  function Ops(es: seq<Command>): seq<Op> {
    if es == [] then []
    else Ops(es[..|es| - 1]) + (if es[|es| - 1].command.Some? then [es[|es| - 1].command.value] else [])
  }

  lemma {:induction false} TreeAfterIsRun(es: seq<Command>)
    ensures TreeAfter(LOG, es) == Run(INITIAL, Ops(es))
  {
    if es != [] {
      var before, e := es[..|es| - 1], es[|es| - 1];
      TreeAfterIsRun(before);
      if e.command.Some? {
        RunConcat(INITIAL, {}, Ops(before), [e.command.value]);
        assert Run(TreeAfter(LOG, before), [e.command.value])
            == Run(Step(TreeAfter(LOG, before), e.command.value).0, []);
      } else {
        assert Ops(before) + [] == Ops(before);
      }
    }
  }

  lemma {:induction false} OpsSplit(es: seq<Command>, p: nat)
    requires p <= |es|
    ensures Ops(es) == Ops(es[..p]) + Ops(es[p..])
    decreases |es|
  {
    if p == |es| {
      assert es[..p] == es && es[p..] == [];
    } else {
      var before := es[..|es| - 1];
      OpsSplit(before, p);
      assert before[..p] == es[..p] && es[p..][..|es| - 1 - p] == before[p..];
    }
  }

  /** Cutting a log of executed commands at one of them. */
  lemma {:induction false} AroundExecution(ran: seq<Command>, p: nat) returns (used: set<string>, late: seq<Op>)
    requires FreshRun({}, Ops(ran)) && p < |ran| && ran[p].command.Some?
    ensures var s, op := TreeAfter(LOG, ran[..p]), ran[p].command.value;
            && Sound(s, used) && FreshOp(used, op) && FreshRun(Learn(used, op), late)
            && TreeAfter(LOG, ran) == Run(Step(s, op).0, late)
  {
    var op := ran[p].command.value;
    var early := Ops(ran[..p]);
    used, late := LearnAll({}, early), Ops(ran[p..][1..]);
    OpsSplit(ran, p);
    OpsSplit(ran[p..], 1);
    assert Ops(ran[p..][..1]) == [op] by {
      assert ran[p..][..1] == [ran[p]] && [ran[p]][..0] == [];
    }
    RunConcat(INITIAL, {}, early, [op] + late);
    assert ([op] + late)[1..] == late && Ops(ran) == early + ([op] + late);
    InitialIsSound();
    SoundRun(INITIAL, {}, early);
    TreeAfterIsRun(ran[..p]);
    TreeAfterIsRun(ran);
    RunCons(Run(INITIAL, early), op, late);
  }

  lemma {:induction false} RunCons(s: State, op: Op, ops: seq<Op>)
    ensures Run(s, [op] + ops) == Run(Step(s, op).0, ops)
  {
    assert ([op] + ops)[1..] == ops;
  }

  /** The blocks named by an outcome, whether it was just executed or came from the table,
      are unreferenced when the caller gets it, and in every later state. */
  lemma {:induction false} DeletingAnsweredBlocksIsSafe(es: seq<Command>, j: nat, k: nat)
    requires FreshRun({}, Ops(Executed(LOG, es))) && j < |es|
    requires Answer(LOG, es, j).Ok? && k < |Discarded(Answer(LOG, es, j).value)|
    ensures !Referenced(After(LOG, es).tree, Discarded(Answer(LOG, es, j).value)[k].id)
  {
    var ran := Executed(LOG, es);
    var p := AnswerWasExecuted(LOG, es, j);
    ExecutedGrows(LOG, es, j + 1);
    assert ran[..p] == Executed(LOG, es[..j + 1])[..p];
    var used, late := AroundExecution(ran, p);
    TableIsTheRecentPast(LOG, es);
    DiscardedForever(TreeAfter(LOG, ran[..p]), used, ran[p].command.value, k, late);
  }

  // ----- Names -----

  ghost predicate UsersHaveValidNames(s: State) {
    forall name :: name in s.users ==> ValidName(name)
  }

  /** Only valid names ever own an account, so every authenticated key is well named. */
  lemma {:induction false} ValidNamesRun(s: State, ops: seq<Op>)
    requires UsersHaveValidNames(s)
    ensures UsersHaveValidNames(Run(s, ops))
    decreases |ops|
  {
    if ops != [] {
      ValidNamesStep(s, ops[0]);
      ValidNamesRun(Step(s, ops[0]).0, ops[1..]);
    }
  }

  lemma {:induction false} ValidNamesStep(s: State, op: Op)
    requires UsersHaveValidNames(s)
    ensures UsersHaveValidNames(Step(s, op).0)
  {
  }

  // ----- The object -----

  /** `ReplicatedTree`: the tree and the ordered dictionary of outcomes, updated in place. */
  class ReplicatedTree {
    const tree: ControlTree
    var keys: seq<string>
    var outcomes: map<string, Result<Value>>

    function View(): Replica<State, Result<Value>>
      reads this, tree
    {
      Replica(tree.View(), keys, outcomes)
    }

    ghost predicate Valid()
      reads this
    {
      && Distinct(keys) && |keys| <= MAX_APPLIED_OPS
      && forall k :: k in outcomes <==> k in keys
    }

    constructor ()
      ensures Valid() && View() == After(LOG, []) && fresh(tree)
    {
      tree := new ControlTree();
      keys, outcomes := [], map[];
    }

    /** The call by name on the tree. */
    method Dispatch(op: Op) returns (r: Result<Value>)
      modifies tree
      ensures (tree.View(), r) == Step(old(tree.View()), op)
    {
      match op
      case MakeDirOp(path, caller) => r := tree.MakeDir(path, caller);
      case RemoveDirOp(path, caller) => r := tree.RemoveDir(path, caller);
      case RemoveFileOp(path, now, caller) => r := tree.RemoveFile(path, now, caller);
      case BeginUploadOp(path, placements, now, lease, blockSize, caller) =>
        r := tree.BeginUpload(path, placements, now, lease, blockSize, caller);
      case ConfirmBlockOp(path, blockId, checksum, size, now, lease, caller) =>
        r := tree.ConfirmBlock(path, blockId, checksum, size, now, lease, caller);
      case CompleteUploadOp(path, caller) => r := tree.CompleteUpload(path, caller);
      case AbortUploadOp(path, caller) => r := tree.AbortUpload(path, caller);
      case AcquireLockOp(path, lockId, owner, mode, now, lease, caller) =>
        r := tree.AcquireLock(path, lockId, owner, mode, now, lease, caller);
      case RenewLockOp(path, lockId, now, lease) => r := tree.RenewLock(path, lockId, now, lease);
      case ReleaseLockOp(path, lockId, now) => r := tree.ReleaseLock(path, lockId, now);
      case UpdateReplicasOp(path, blockId, expected, replacement) =>
        r := tree.UpdateBlockReplicas(path, blockId, expected, replacement);
      case BeginWriteOp(path, writeId, lockId, baseVersion, offset, length, proposals, now, lease, default_, caller) =>
        r := tree.BeginWrite(path, writeId, lockId, baseVersion, offset, length, proposals, now, lease, default_,
                             caller);
      case CommitWriteOp(path, writeId, lockId, baseVersion, confirmed, now, caller) =>
        r := tree.CommitWrite(path, writeId, lockId, baseVersion, confirmed, now, caller);
      case AbortWriteOp(path, writeId, lockId, now) => r := tree.AbortWrite(path, writeId, lockId, now);
      case CreateUserOp(username, hash, salt, groups, isAdmin) =>
        r := tree.CreateUser(username, hash, salt, groups, isAdmin);
      case ChangePasswordOp(username, hash, salt) => r := tree.ChangePassword(username, hash, salt);
      case ChmodOp(path, newMode, caller) => r := tree.Chmod(path, newMode, caller);
      case ChownOp(path, newOwner, newGroup, caller) => r := tree.Chown(path, newOwner, newGroup, caller);
    }

    /** Forgets the oldest outcomes, in the order they were applied. */
    method Evict()
      requires Distinct(keys) && forall k :: k in outcomes <==> k in keys
      modifies this
      ensures Valid()
      ensures keys == Recent(old(keys)) && outcomes == Restrict(old(outcomes), keys)
    {
      ghost var dropped := 0;
      while |keys| > MAX_APPLIED_OPS
        invariant dropped <= |old(keys)| && keys == old(keys)[dropped..]
        invariant dropped == 0 || |keys| >= MAX_APPLIED_OPS
        invariant Distinct(keys) && outcomes == Restrict(old(outcomes), keys)
        invariant forall k :: k in keys ==> k in old(outcomes)
      {
        ForgetOldest(old(outcomes), keys);
        outcomes, keys, dropped := outcomes - {keys[0]}, keys[1..], dropped + 1;
      }
    }

    /** Remembers an outcome, the last of at most ten thousand. */
    method Record(key: string, r: Result<Value>)
      requires Valid() && key !in outcomes
      modifies this
      ensures Valid()
      ensures keys == Recent(old(keys) + [key]) && outcomes == Restrict(old(outcomes)[key := r], keys)
      ensures key in outcomes && outcomes[key] == r && keys[|keys| - 1] == key
      ensures |keys| == Min(|old(keys)| + 1, 10_000)
      ensures forall k :: k in outcomes && k != key ==> k in old(outcomes) && outcomes[k] == old(outcomes)[k]
    {
      keys, outcomes := keys + [key], outcomes[key := r];
      Evict();
      assert keys[|keys| - 1] == key;
    }

    /** `ReplicatedTree.apply`: a key that is known is answered, and nothing else happens; any
        other is executed, and remembered. */
    method ApplyCommand(key: string, op: Option<Op>) returns (r: Result<Value>)
      requires Valid()
      modifies this, tree
      ensures Valid()
      ensures (View(), r) == Apply(LOG, old(View()), Entry(key, op))
      ensures key in old(outcomes) ==> r == old(outcomes)[key] && View() == old(View())
      ensures key !in old(outcomes) ==>
                (tree.View(), r) == (if op.None? then (old(tree.View()), Err(InvalidPath))
                                     else Step(old(tree.View()), op.value))
      ensures key !in old(outcomes) ==>
                && key in outcomes && outcomes[key] == r && keys[|keys| - 1] == key
                && |keys| == Min(|old(keys)| + 1, 10_000)
                && forall k :: k in outcomes && k != key ==> k in old(outcomes) && outcomes[k] == old(outcomes)[k]
    {
      if key in outcomes {
        return outcomes[key];
      }
      if op.None? {
        r := Err(InvalidPath);
      } else {
        r := Dispatch(op.value);
      }
      assert LOG.run(old(tree.View()), op) == (tree.View(), r);
      Record(key, r);
    }
  }
}
