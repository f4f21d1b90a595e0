/** The request handlers of the leader: where new blocks go, and which blocks are deleted
    from the DataNodes after a command. Deleting what the log's outcome names is always
    safe. AbortUpload deletes what it read before the command instead, and that is safe
    exactly when a command executed after the reading took each of those blocks. If nobody
    else uses its key that is so exactly when, at the reading, the key was not already known
    for a success. */
module Handlers {
  import opened Common
  import opened Paths
  import opened Tree
  import opened Mutations
  import opened Effects
  import opened History
  import opened Conservation
  import opened Deduplication
  import opened ReplicatedLog
  import opened Entries

  // ----- Deleting after AbortUpload -----

  /** `ControlTree.pending_blocks`: a copy of the blocks of a pending upload, none otherwise. */
  function PendingBlocks(root: Directory, path: string): seq<BlockRecord> {
    var parsed := Parts(path);
    if parsed.Ok? && PendingFile(root, parsed.value).Ok? then Copied(PendingFile(root, parsed.value).value.blocks)
    else []
  }

  /** The copy leaves out which blocks are confirmed. */
  function Copied(blocks: seq<BlockRecord>): (r: seq<BlockRecord>)
    ensures |r| == |blocks| && forall i :: 0 <= i < |r| ==> r[i] == blocks[i].(confirmed := false)
  {
    if blocks == [] then [] else [blocks[0].(confirmed := false)] + Copied(blocks[1..])
  }

  /** An unreadable path, a directory, a committed file or nothing has no pending blocks. */
  lemma {:induction false} PendingBlocksExactly(root: Directory, path: string)
    ensures var p, blocks := Parts(path), PendingBlocks(root, path);
            if p.Err? || !Pending(root, p.value) then blocks == []
            else && |blocks| == |FileOf(root, p.value).blocks|
                 && forall i :: 0 <= i < |blocks| ==> blocks[i] == FileOf(root, p.value).blocks[i].(confirmed := false)
  {
    if Parts(path).Ok? {
      CommittedFileIsCommitted(root, Parts(path).value);
    }
  }

  ghost predicate NoneReferenced(s: State, blocks: seq<BlockRecord>) {
    forall i :: 0 <= i < |blocks| ==> !Referenced(s, blocks[i].id)
  }

  /** Each of the blocks is in its slot of the path, or nowhere. */
  ghost predicate Held(s: State, used: set<string>, path: Path, blocks: seq<BlockRecord>) {
    forall i :: 0 <= i < |blocks| ==> HeldAt(s, used, path, i, blocks[i].id)
  }

  ghost predicate HeldAt(s: State, used: set<string>, path: Path, i: nat, id: string) {
    id in used && forall a :: IdAt(s, a) == Some(id) ==> a == InFile(path, i)
  }

  lemma {:induction false} ReadBlocksAreHeld(s: State, used: set<string>, abort: Op)
    requires Sound(s, used) && abort.AbortUploadOp?
    ensures Held(s, used, if Target(abort).Ok? then Target(abort).value else [], PendingBlocks(s.root, abort.path))
  {
    var blocks := PendingBlocks(s.root, abort.path);
    forall i | 0 <= i < |blocks| ensures HeldAt(s, used, Target(abort).value, i, blocks[i].id) {
      assert IdAt(s, InFile(Target(abort).value, i)) == Some(blocks[i].id);
    }
  }

  /** Ids of files do not move. */
  lemma {:induction false} HeldStep(s: State, used: set<string>, op: Op, path: Path, blocks: seq<BlockRecord>)
    requires Sound(s, used) && FreshOp(used, op) && Held(s, used, path, blocks)
    ensures Held(Step(s, op).0, Learn(used, op), path, blocks)
  {
    forall i | 0 <= i < |blocks| ensures HeldAt(Step(s, op).0, Learn(used, op), path, i, blocks[i].id) {
      assert HeldAt(s, used, path, i, blocks[i].id);
      forall a | IdAt(Step(s, op).0, a) == Some(blocks[i].id) ensures a == InFile(path, i) {
        IdsHaveOrigins(s, op, a);
        if OriginOf(s, op, a).Old? {
          FileIdsDoNotMove(s, op, a, path, i);
        }
      }
    }
  }

  lemma {:induction false} HeldRun(s: State, used: set<string>, ops: seq<Op>, path: Path, blocks: seq<BlockRecord>)
    requires Sound(s, used) && FreshRun(used, ops) && Held(s, used, path, blocks)
    ensures Held(Run(s, ops), LearnAll(used, ops), path, blocks)
    decreases |ops|
  {
    if ops != [] {
      HeldStep(s, used, ops[0], path, blocks);
      SoundStep(s, used, ops[0]);
      HeldRun(Step(s, ops[0]).0, Learn(used, ops[0]), ops[1..], path, blocks);
    }
  }

  /** An abort that is executed leaves nothing at its path. */
  lemma {:induction false} AbortFrees(s: State, used: set<string>, abort: Op, blocks: seq<BlockRecord>)
    requires Sound(s, used) && abort.AbortUploadOp? && Succeeds(s, abort) && Target(abort).Ok?
    requires Held(s, used, Target(abort).value, blocks)
    ensures NoneReferenced(Step(s, abort).0, blocks) && Held(Step(s, abort).0, used, Target(abort).value, blocks)
  {
    assert NewIds(abort) == [] && Learn(used, abort) == used;
    HeldStep(s, used, abort, Target(abort).value, blocks);
    StepFiles(s, abort, Target(abort).value);
    forall i | 0 <= i < |blocks| ensures !Referenced(Step(s, abort).0, blocks[i].id) {
      assert HeldAt(Step(s, abort).0, used, Target(abort).value, i, blocks[i].id);
    }
  }

  /** If the abort is executed, the blocks read before it are dead after it, whatever other
      commands came between the reading and the abort. */
  lemma {:induction false} ExecutedAbortFreesTheReadBlocks(s: State, used: set<string>, mid: seq<Op>, abort: Op)
    requires Sound(s, used) && FreshRun(used, mid)
    requires abort.AbortUploadOp? && Succeeds(Run(s, mid), abort)
    ensures NoneReferenced(Step(Run(s, mid), abort).0, PendingBlocks(s.root, abort.path))
  {
    AbortHasAPath(Run(s, mid), abort);
    ReadBlocksAreHeld(s, used, abort);
    HeldRun(s, used, mid, Target(abort).value, PendingBlocks(s.root, abort.path));
    SoundRun(s, used, mid);
    AbortFrees(Run(s, mid), LearnAll(used, mid), abort, PendingBlocks(s.root, abort.path));
  }

  lemma {:induction false} AbortHasAPath(s: State, abort: Op)
    requires abort.AbortUploadOp? && Succeeds(s, abort)
    ensures Target(abort).Ok?
  {
  }

  // ----- The reading and the commit with other commands between them -----

  type Table = Replica<State, Result<Value>>

  /** The ids that the commands executed from `r` on introduce are fresh. */
  ghost predicate FreshFrom(r: Table, used: set<string>, es: seq<Command>) {
    FreshRun(used, Ops(RunsFrom(LOG, r, es)))
  }

  /** No request but this abort uses the key, as with a client that draws a key for each
      request. */
  ghost predicate SameAbort(es: seq<Command>, key: string, path: string) {
    forall i :: 0 <= i < |es| && es[i].key == key ==>
      es[i].command.Some? && es[i].command.value.AbortUploadOp? && es[i].command.value.path == path
  }

  /** The key is not known, or known for a failure. */
  predicate NotDone(r: Table, key: string) {
    key in r.outcomes ==> r.outcomes[key].Err?
  }

  lemma {:induction false} OpsCons(e: Command, es: seq<Command>)
    ensures Ops([e] + es) == (if e.command.Some? then [e.command.value] else []) + Ops(es)
  {
    OpsSplit([e] + es, 1);
    assert ([e] + es)[..1] == [e] && ([e] + es)[1..] == es && [e][..0] == [];
  }

  /** One entry: either it changes nothing, or it is one fresh command. */
  lemma {:induction false} OneEntry(r: Table, used: set<string>, es: seq<Command>) returns (used': set<string>)
    requires es != [] && FreshFrom(r, used, es)
    ensures FreshFrom(Apply(LOG, r, es[0]).0, used', es[1..])
    ensures if es[0].key !in r.outcomes && es[0].command.Some?
            then FreshOp(used, es[0].command.value) && used' == Learn(used, es[0].command.value)
                 && Apply(LOG, r, es[0]).0.tree == Step(r.tree, es[0].command.value).0
            else used' == used && Apply(LOG, r, es[0]).0.tree == r.tree
  {
    var rest := RunsFrom(LOG, Apply(LOG, r, es[0]).0, es[1..]);
    used' := used;
    if es[0].key !in r.outcomes {
      OpsCons(es[0], rest);
      assert LOG.run(r.tree, es[0].command) == Execute(r.tree, es[0].command);
      if es[0].command.Some? {
        used' := Learn(used, es[0].command.value);
        assert ([es[0].command.value] + Ops(rest))[1..] == Ops(rest);
      } else {
        assert [] + Ops(rest) == Ops(rest);
      }
    } else {
      assert [] + rest == rest;
    }
  }

  lemma {:induction false} DeadFrom(r: Table, used: set<string>, es: seq<Command>, path: Path, blocks: seq<BlockRecord>)
    requires Sound(r.tree, used) && FreshFrom(r, used, es)
    requires Held(r.tree, used, path, blocks) && NoneReferenced(r.tree, blocks)
    ensures NoneReferenced(Continue(LOG, r, es).tree, blocks)
    decreases |es|
  {
    if es != [] {
      var used' := OneEntry(r, used, es);
      var r' := Apply(LOG, r, es[0]).0;
      if es[0].key !in r.outcomes && es[0].command.Some? {
        var op := es[0].command.value;
        SoundStep(r.tree, used, op);
        HeldStep(r.tree, used, op, path, blocks);
        forall i | 0 <= i < |blocks| ensures !Referenced(r'.tree, blocks[i].id) {
          assert HeldAt(r.tree, used, path, i, blocks[i].id);
          DeadStaysDead(r.tree, used, op, blocks[i].id);
        }
      }
      DeadFrom(r', used', es[1..], path, blocks);
    }
  }

  /** What is held before an entry is held after it. */
  lemma {:induction false} EntryKeepsHeld(r: Table, used: set<string>, es: seq<Command>, path: Path,
        blocks: seq<BlockRecord>)
    returns (used': set<string>)
    requires es != [] && Sound(r.tree, used) && FreshFrom(r, used, es) && Held(r.tree, used, path, blocks)
    ensures var r' := Apply(LOG, r, es[0]).0;
            Sound(r'.tree, used') && FreshFrom(r', used', es[1..]) && Held(r'.tree, used', path, blocks)
  {
    used' := OneEntry(r, used, es);
    if es[0].key !in r.outcomes && es[0].command.Some? {
      SoundStep(r.tree, used, es[0].command.value);
      HeldStep(r.tree, used, es[0].command.value, path, blocks);
    }
  }

  predicate Aborts(e: Command, path: string) {
    e.command.Some? && e.command.value.AbortUploadOp? && e.command.value.path == path
  }

  /** The first entry that makes the key known for a success is an abort of the path. */
  ghost predicate DoneByAbort(r: Table, es: seq<Command>, key: string, path: string)
    decreases |es|
  {
    && es != []
    && if NotDone(Apply(LOG, r, es[0]).0, key) then DoneByAbort(Apply(LOG, r, es[0]).0, es[1..], key, path)
       else Aborts(es[0], path)
  }

  /** It is, if no other request uses the key. */
  lemma {:induction false} OwnKeyIsDoneByAbort(r: Table, es: seq<Command>, key: string, path: string)
    requires SameAbort(es, key, path) && NotDone(r, key) && !NotDone(Continue(LOG, r, es), key)
    ensures DoneByAbort(r, es, key, path)
    decreases |es|
  {
    if es != [] {
      var r' := Apply(LOG, r, es[0]).0;
      if NotDone(r', key) {
        assert forall i :: 0 <= i < |es[1..]| ==> es[1..][i] == es[i + 1];
        OwnKeyIsDoneByAbort(r', es[1..], key, path);
      } else {
        TurnedDone(r, es[0], key);
      }
    }
  }

  /** The entry that makes the key done executes the abort. */
  lemma {:induction false} TurningFrees(r: Table, used: set<string>, es: seq<Command>, key: string, path: string,
                                        blocks: seq<BlockRecord>)
    requires es != [] && Sound(r.tree, used) && FreshFrom(r, used, es) && Aborts(es[0], path)
    requires Parts(path).Ok? && Held(r.tree, used, Parts(path).value, blocks)
    requires es[0].key == key && key !in r.outcomes && es[0].command.Some? && Succeeds(r.tree, es[0].command.value)
    ensures NoneReferenced(Apply(LOG, r, es[0]).0.tree, blocks)
  {
    var used' := OneEntry(r, used, es);
    AbortFrees(r.tree, used, es[0].command.value, blocks);
  }

  /** If an abort of the path makes the key done, it is executed, and the blocks held at the
      path before are dead. */
  lemma {:induction false} DoneMeansFreed(r: Table, used: set<string>, es: seq<Command>, key: string, abort: Op,
        blocks: seq<BlockRecord>)
    requires Sound(r.tree, used) && FreshFrom(r, used, es) && abort.AbortUploadOp? && Target(abort).Ok?
    requires Held(r.tree, used, Target(abort).value, blocks)
    requires NotDone(r, key) && DoneByAbort(r, es, key, abort.path)
    ensures NoneReferenced(Continue(LOG, r, es).tree, blocks)
    decreases |es|
  {
    var used' := EntryKeepsHeld(r, used, es, Target(abort).value, blocks);
    var r' := Apply(LOG, r, es[0]).0;
    if NotDone(r', key) {
      DoneMeansFreed(r', used', es[1..], key, abort, blocks);
    } else {
      TurnedDone(r, es[0], key);
      TurningFrees(r, used, es, key, abort.path, blocks);
      DeadFrom(r', used', es[1..], Target(abort).value, blocks);
    }
  }

  lemma {:induction false} TurnedDone(r: Table, e: Command, key: string)
    requires NotDone(r, key) && !NotDone(Apply(LOG, r, e).0, key)
    ensures e.key == key && e.key !in r.outcomes
    ensures e.command.Some? && Succeeds(r.tree, e.command.value)
  {
    assert LOG.run(r.tree, e.command) == Execute(r.tree, e.command);
  }

  /** Other commands between the reading and the abort, which is then answered Ok, so that
      the handler deletes what it read. */
  ghost predicate Between(r: Table, used: set<string>, key: string, abort: Op, mid: seq<Command>)
    requires abort.AbortUploadOp?
  {
    && FreshFrom(r, used, mid + [Entry(key, Some(abort))]) && SameAbort(mid, key, abort.path)
    && Apply(LOG, Continue(LOG, r, mid), Entry(key, Some(abort))).1.Ok?
  }

  ghost predicate DeletesSafely(r: Table, key: string, abort: Op, mid: seq<Command>)
    requires abort.AbortUploadOp?
  {
    NoneReferenced(Continue(LOG, r, mid + [Entry(key, Some(abort))]).tree, PendingBlocks(r.tree.root, abort.path))
  }

  /** If the first success recorded under the key after the reading is an abort of this path,
      the deletions are safe, whatever else uses the key. */
  lemma {:induction false} AbortUnderItsKeyIsSafe(r: Table, used: set<string>, key: string, abort: Op,
        mid: seq<Command>)
    requires Sound(r.tree, used) && abort.AbortUploadOp? && NotDone(r, key)
    requires FreshFrom(r, used, mid + [Entry(key, Some(abort))])
    requires DoneByAbort(r, mid + [Entry(key, Some(abort))], key, abort.path)
    ensures DeletesSafely(r, key, abort, mid)
  {
    if Target(abort).Ok? {
      ReadBlocksAreHeld(r.tree, used, abort);
      DoneMeansFreed(r, used, mid + [Entry(key, Some(abort))], key, abort, PendingBlocks(r.tree.root, abort.path));
    }
  }

  lemma {:induction false} NotDoneIsSafe(r: Table, used: set<string>, key: string, abort: Op, mid: seq<Command>)
    requires Sound(r.tree, used) && abort.AbortUploadOp? && Between(r, used, key, abort, mid) && NotDone(r, key)
    ensures DeletesSafely(r, key, abort, mid)
  {
    var e := Entry(key, Some(abort));
    AnsweredIsDone(r, mid, e);
    SameAbortSnoc(mid, key, abort);
    OwnKeyIsDoneByAbort(r, mid + [e], key, abort.path);
    AbortUnderItsKeyIsSafe(r, used, key, abort, mid);
  }

  // ----- The exact condition, run by run -----

  lemma {:induction false} ContinueIsRun(r: Table, es: seq<Command>)
    ensures Continue(LOG, r, es).tree == Run(r.tree, Ops(RunsFrom(LOG, r, es)))
    decreases |es|
  {
    if es != [] {
      var r' := Apply(LOG, r, es[0]).0;
      var rest := RunsFrom(LOG, r', es[1..]);
      ContinueIsRun(r', es[1..]);
      if es[0].key in r.outcomes {
        assert [] + rest == rest;
      } else {
        OpsCons(es[0], rest);
        assert LOG.run(r.tree, es[0].command) == Execute(r.tree, es[0].command);
        RunAfter(r.tree, es[0].command, Ops(rest));
      }
    }
  }

  lemma {:induction false} RunAfter(s: State, op: Option<Op>, rest: seq<Op>)
    ensures Run(s, (if op.Some? then [op.value] else []) + rest) == Run(Execute(s, op).0, rest)
  {
    if op.Some? {
      assert ([op.value] + rest)[1..] == rest;
    } else {
      assert [] + rest == rest;
    }
  }

  /** The exact condition for each run, whatever comes between and under whatever keys: the
      deletions of AbortUpload are safe if and only if each block it read was taken by a
      command executed after the reading, up to its own turn. */
  lemma {:induction false} AbortIsSafeIffTaken(r: Table, used: set<string>, key: string, abort: Op, mid: seq<Command>)
    requires Sound(r.tree, used) && abort.AbortUploadOp? && FreshFrom(r, used, mid + [Entry(key, Some(abort))])
    ensures DeletesSafely(r, key, abort, mid)
            <==> AllTaken(r.tree, Ops(RunsFrom(LOG, r, mid + [Entry(key, Some(abort))])), abort.path)
  {
    var es, blocks := mid + [Entry(key, Some(abort))], PendingBlocks(r.tree.root, abort.path);
    ContinueIsRun(r, es);
    AllTakenIffDead(r.tree, used, Ops(RunsFrom(LOG, r, es)), abort.path);
  }

  /** The run takes every block of the pending upload at the path. */
  ghost predicate AllTaken(s: State, ops: seq<Op>, path: string) {
    forall i {:trigger PendingBlocks(s.root, path)[i]} :: 0 <= i < |PendingBlocks(s.root, path)| ==>
      Parts(path).Ok? && TakenIn(s, ops, Parts(path).value, i)
  }

  lemma {:induction false} AllTakenIffDead(s: State, used: set<string>, ops: seq<Op>, path: string)
    requires Sound(s, used) && FreshRun(used, ops)
    ensures AllTaken(s, ops, path) <==> NoneReferenced(Run(s, ops), PendingBlocks(s.root, path))
  {
    var blocks := PendingBlocks(s.root, path);
    forall i | 0 <= i < |blocks|
      ensures Parts(path).Ok?
      ensures !Referenced(Run(s, ops), blocks[i].id) <==> TakenIn(s, ops, Parts(path).value, i)
    {
      assert IdAt(s, InFile(Parts(path).value, i)) == Some(blocks[i].id);
      GoneIffTaken(s, used, ops, Parts(path).value, i, blocks[i].id);
    }
  }

  lemma {:induction false} AnsweredIsDone(r: Table, mid: seq<Command>, e: Command)
    requires Apply(LOG, Continue(LOG, r, mid), e).1.Ok?
    ensures !NotDone(Continue(LOG, r, mid + [e]), e.key)
  {
    ContinueSnoc(LOG, r, mid, e);
    AnswerIsRecorded(LOG, Continue(LOG, r, mid), e);
  }

  lemma {:induction false} SameAbortSnoc(mid: seq<Command>, key: string, abort: Op)
    requires abort.AbortUploadOp? && SameAbort(mid, key, abort.path)
    ensures SameAbort(mid + [Entry(key, Some(abort))], key, abort.path)
  {
  }

  lemma {:induction false} DoneIsUnsafe(r: Table, used: set<string>, key: string, abort: Op)
    requires Sound(r.tree, used) && abort.AbortUploadOp? && !NotDone(r, key)
    requires PendingBlocks(r.tree.root, abort.path) != []
    ensures Between(r, used, key, abort, []) && !DeletesSafely(r, key, abort, [])
  {
    var e := Entry(key, Some(abort));
    ContinueAnswered(LOG, r, e);
    assert [] + [e] == [e];
    var blocks := PendingBlocks(r.tree.root, abort.path);
    assert IdAt(r.tree, InFile(Parts(abort.path).value, 0)) == Some(blocks[0].id);
    assert Referenced(r.tree, blocks[0].id);
  }

  /** The exact condition at the moment the handler reads, for a key that no other request
      uses. Its deletions are safe for every interleaving up to the answer if and only if the
      key is not already known for a success, or there is nothing to delete. The abort may
      then be executed at the request's own turn or at that of a twin of it. */
  lemma {:induction false} AbortDeletesSafelyIff(r: Table, used: set<string>, key: string, abort: Op)
    requires Sound(r.tree, used) && abort.AbortUploadOp?
    ensures (forall mid :: Between(r, used, key, abort, mid) ==> DeletesSafely(r, key, abort, mid))
            <==> NotDone(r, key) || PendingBlocks(r.tree.root, abort.path) == []
  {
    if NotDone(r, key) {
      forall mid | Between(r, used, key, abort, mid) ensures DeletesSafely(r, key, abort, mid) {
        NotDoneIsSafe(r, used, key, abort, mid);
      }
    } else if PendingBlocks(r.tree.root, abort.path) != [] {
      DoneIsUnsafe(r, used, key, abort);
    }
  }

  const FIRST: Command := Entry("k1", Some(BeginUploadOp("/f", [Placement("b1", ["n1"])], 0.0, 60.0, 4, None)))
  const ABORT: Command := Entry("k2", Some(AbortUploadOp("/f", None)))
  const SECOND: Command := Entry("k3", Some(BeginUploadOp("/f", [Placement("b2", ["n1"])], 1.0, 60.0, 4, None)))

  /** The case it fails on: upload, abort, upload the same name again, and the abort comes
      once more. The handler is told Ok and holds block `b2`, which the new upload uses. */
  lemma {:induction false} RepeatedAbortDeletesALiveBlock()
    ensures var before, log := [FIRST, ABORT, SECOND], [FIRST, ABORT, SECOND, ABORT];
            && Answer(LOG, log, 3) == Ok(Unit)
            && PendingBlocks(After(LOG, before).tree.root, "/f") == [BlockRecord("b2", ["n1"], "", 0, false)]
            && Referenced(After(LOG, log).tree, "b2")
  {
    FIsAPath();
    AfterSecond();
    var before := [FIRST, ABORT, SECOND];
    AnsweredChangesNothing(LOG, before, ABORT);
    assert before + [ABORT] == [FIRST, ABORT, SECOND, ABORT];
    assert IdAt(After(LOG, before).tree, InFile(["f"], 0)) == Some("b2");
  }

  const OTHER: Command := Entry("k2", Some(MakeDirOp("/d", None)))

  /** The other case: another request under the same key succeeds between the reading and the
      abort. The abort is answered Ok from the table, nothing is aborted, and the handler
      holds block `b1` of the upload that goes on. */
  lemma {:induction false} SharedKeyDeletesALiveBlock()
    ensures var reading, log := After(LOG, [FIRST]), [FIRST, OTHER, ABORT];
            && NotDone(reading, "k2") && Answer(LOG, log, 2) == Ok(Unit)
            && PendingBlocks(reading.tree.root, "/f") == [BlockRecord("b1", ["n1"], "", 0, false)]
            && Referenced(After(LOG, log).tree, "b1")
  {
    FIsAPath();
    AfterFirst();
    AfterOther();
    var before := [FIRST, OTHER];
    AnsweredChangesNothing(LOG, before, ABORT);
    assert before + [ABORT] == [FIRST, OTHER, ABORT];
    assert IdAt(After(LOG, before).tree, InFile(["f"], 0)) == Some("b1");
  }

  lemma {:induction false} AfterOther()
    requires Parts("/f") == Ok(["f"])
    ensures var r := After(LOG, [FIRST, OTHER]);
            && FileAt(r.tree.root, ["f"]) == FileAt(UploadedTo(INITIAL.root, "b1", 60.0), ["f"])
            && "k2" in r.outcomes && r.outcomes["k2"] == Ok(Unit)
  {
    AfterFirst();
    assert [FIRST, OTHER][..1] == [FIRST];
    var s := After(LOG, [FIRST]).tree;
    assert LOG.run(s, OTHER.command) == Step(s, OTHER.command.value);
    DirBesideF(s);
    StepFiles(s, OTHER.command.value, ["f"]);
  }

  lemma {:induction false} DirBesideF(s: State)
    requires s == INITIAL.(root := UploadedTo(INITIAL.root, "b1", 60.0))
    ensures Parts("/d") == Ok(["d"]) && Step(s, OTHER.command.value).1 == Ok(Unit)
  {
    PartsOfCanonical(["d"]);
    assert Canonical(["d"]) == "/d";
    assert Front(["d"]) == [];
  }

  lemma {:induction false} FIsAPath()
    ensures Parts("/f") == Ok(["f"])
  {
    PartsOfCanonical(["f"]);
    assert Canonical(["f"]) == "/f";
  }

  function UploadedTo(root: Directory, id: string, expires: real): Directory {
    Put(root, ["f"], FileNode(FileRecord(false, [BlockRecord(id, ["n1"], "", 0, false)], expires, 0, 4,
                                         Attributes(DEFAULT_OWNER, DEFAULT_OWNER, FILE_MODE))))
  }

  lemma {:induction false} UploadOfF(s: State, id: string, now: real)
    requires s.root == INITIAL.root && Parts("/f") == Ok(["f"])
    ensures Step(s, BeginUploadOp("/f", [Placement(id, ["n1"])], now, 60.0, 4, None))
            == (s.(root := UploadedTo(s.root, id, now + 60.0)), Ok(Uploading([Placement(id, ["n1"])], [])))
  {
    assert Front(["f"]) == [];
    assert NewBlocks([Placement(id, ["n1"])]) == [BlockRecord(id, ["n1"], "", 0, false)];
  }

  lemma {:induction false} AfterFirst()
    requires Parts("/f") == Ok(["f"])
    ensures After(LOG, [FIRST]) == Replica(INITIAL.(root := UploadedTo(INITIAL.root, "b1", 60.0)), ["k1"],
                                           map["k1" := Ok(Uploading([Placement("b1", ["n1"])], []))])
  {
    UploadOfF(INITIAL, "b1", 0.0);
    assert [FIRST][..0] == [];
    assert LOG.run(INITIAL, FIRST.command) == Step(INITIAL, FIRST.command.value);
  }

  lemma {:induction false} AfterAbort()
    requires Parts("/f") == Ok(["f"])
    ensures var r := After(LOG, [FIRST, ABORT]);
            && r.tree == INITIAL && "k3" !in r.outcomes && "k2" in r.outcomes && r.outcomes["k2"] == Ok(Unit)
            && r.keys == ["k1", "k2"]
  {
    AfterFirst();
    assert [FIRST, ABORT][..1] == [FIRST];
    var s := After(LOG, [FIRST]).tree;
    assert LOG.run(s, ABORT.command) == Step(s, ABORT.command.value);
    AbortOfF(s);
  }

  lemma {:induction false} AbortOfF(s: State)
    requires Parts("/f") == Ok(["f"]) && s == INITIAL.(root := UploadedTo(INITIAL.root, "b1", 60.0))
    ensures Step(s, ABORT.command.value) == (INITIAL, Ok(Unit))
  {
    assert Front(["f"]) == [];
    assert Delete(s.root, ["f"]) == INITIAL.root;
  }

  lemma {:induction false} AfterSecond()
    requires Parts("/f") == Ok(["f"])
    ensures var r := After(LOG, [FIRST, ABORT, SECOND]);
            && r.tree == INITIAL.(root := UploadedTo(INITIAL.root, "b2", 61.0))
            && "k2" in r.outcomes && r.outcomes["k2"] == Ok(Unit)
  {
    AfterAbort();
    assert [FIRST, ABORT, SECOND][..2] == [FIRST, ABORT];
    UploadOfF(INITIAL, "b2", 1.0);
    assert LOG.run(INITIAL, SECOND.command) == Step(INITIAL, SECOND.command.value);
    assert (["k1", "k2"] + ["k3"])[1] == "k2";
  }
}
