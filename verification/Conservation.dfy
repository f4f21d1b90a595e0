/** Block ids are conserved: in every reachable state each id sits in exactly one slot of
    one file or of one reservation, a command moves ids without copying them, and an id
    that leaves the metadata never comes back. Hence the blocks the servicer deletes
    after a command are unreferenced, then and forever. */
module Conservation {
  import opened Common
  import opened Paths
  import opened Tree
  import opened WritePlan
  import opened Mutations
  import opened Effects
  import opened History
  import opened Locking

  // ----- Publishing a reservation -----

  ghost predicate Consecutive(slots: seq<WriteSlot>) {
    |slots| > 0 && forall k :: 0 <= k < |slots| ==> slots[k].index == slots[0].index + k
  }

  ghost predicate ReservationsOk(s: State) {
    forall w :: w in s.writes ==> Consecutive(s.writes[w].slots)
  }

  function NewBlocksOf(slots: seq<WriteSlot>, confirmed: seq<Confirmed>): (r: seq<BlockRecord>)
    requires |slots| == |confirmed|
    ensures |r| == |slots| && forall k :: 0 <= k < |r| ==> r[k] == PublishedBlock(slots[k], confirmed[k])
  {
    if slots == [] then [] else [PublishedBlock(slots[0], confirmed[0])] + NewBlocksOf(slots[1..], confirmed[1..])
  }

  /** Where the first published block lands. */
  function PublishStart(blocks: seq<BlockRecord>, slots: seq<WriteSlot>): nat
    requires slots != []
  {
    Min(slots[0].index, |blocks|)
  }

  /** The loop of `commit_write` lays the new blocks over the old ones, in place, and
      hands back exactly the old blocks it covered. */
  lemma {:induction false} PublishIsOverlay(blocks: seq<BlockRecord>, slots: seq<WriteSlot>, confirmed: seq<Confirmed>)
    requires Consecutive(slots) && |slots| == |confirmed|
    ensures var base := PublishStart(blocks, slots);
            && Publish(blocks, slots, confirmed).0 == Overlay(blocks, base, NewBlocksOf(slots, confirmed))
            && Publish(blocks, slots, confirmed).1 == blocks[base..Min(base + |slots|, |blocks|)]
    decreases |slots|
  {
    var base := PublishStart(blocks, slots);
    var block := PublishedBlock(slots[0], confirmed[0]);
    var next := if slots[0].index < |blocks| then blocks[slots[0].index := block] else blocks + [block];
    var rest := NewBlocksOf(slots[1..], confirmed[1..]);
    assert NewBlocksOf(slots, confirmed) == [block] + rest;
    OverlayStep(blocks, next, base, block, rest);
    if |slots| == 1 {
      PublishNothing(next, slots[1..], confirmed[1..]);
    } else {
      PublishIsOverlay(next, slots[1..], confirmed[1..]);
      assert PublishStart(next, slots[1..]) == base + 1;
    }
  }

  lemma {:induction false} PublishNothing(blocks: seq<BlockRecord>, slots: seq<WriteSlot>, confirmed: seq<Confirmed>)
    requires slots == [] && confirmed == []
    ensures Publish(blocks, slots, confirmed) == (blocks, [])
    ensures forall base :: 0 <= base <= |blocks| ==> Overlay(blocks, base, NewBlocksOf(slots, confirmed)) == blocks
  {
  }

  lemma {:induction false} OverlayStep(blocks: seq<BlockRecord>, next: seq<BlockRecord>, base: nat, block: BlockRecord,
                                       rest: seq<BlockRecord>)
    requires base <= |blocks|
    requires next == if base < |blocks| then blocks[base := block] else blocks + [block]
    ensures Overlay(next, base + 1, rest) == Overlay(blocks, base, [block] + rest)
    ensures base < |blocks| ==>
              [blocks[base]] + next[base + 1..Min(base + 1 + |rest|, |next|)]
              == blocks[base..Min(base + |[block] + rest|, |blocks|)]
    ensures base == |blocks| ==> next[base + 1..Min(base + 1 + |rest|, |next|)] == []
  {
  }

  /** The ids of the published list: the slots' own, then the old ones elsewhere. */
  lemma {:induction false} PublishedIds(blocks: seq<BlockRecord>, slots: seq<WriteSlot>, confirmed: seq<Confirmed>,
        i: nat)
    requires Consecutive(slots) && |slots| == |confirmed| && i < |Publish(blocks, slots, confirmed).0|
    ensures var base := PublishStart(blocks, slots);
            if base <= i < base + |slots| then Publish(blocks, slots, confirmed).0[i].id == slots[i - base].blockId
            else i < |blocks| && Publish(blocks, slots, confirmed).0[i] == blocks[i]
  {
    PublishIsOverlay(blocks, slots, confirmed);
  }

  lemma {:induction false} ReplacedBlocks(blocks: seq<BlockRecord>, slots: seq<WriteSlot>, confirmed: seq<Confirmed>,
        k: nat)
    requires Consecutive(slots) && |slots| == |confirmed| && k < |Publish(blocks, slots, confirmed).1|
    ensures k < |slots| && PublishStart(blocks, slots) + k < |blocks|
    ensures Publish(blocks, slots, confirmed).1[k] == blocks[PublishStart(blocks, slots) + k]
  {
    PublishIsOverlay(blocks, slots, confirmed);
  }

  // ----- Where ids are -----

  datatype Loc = InFile(path: Path, i: nat) | InWrite(writeId: string, k: nat)

  function IdAt(s: State, a: Loc): Option<string> {
    match a
    case InFile(path, i) =>
      var file := FileAt(s.root, path);
      if file.Some? && i < |file.value.blocks| then Some(file.value.blocks[i].id) else None
    case InWrite(w, k) =>
      if w in s.writes && k < |s.writes[w].slots| then Some(s.writes[w].slots[k].blockId) else None
  }

  /** No id in two places. */
  ghost predicate Unique(s: State) {
    forall a, b :: IdAt(s, a).Some? && IdAt(s, a) == IdAt(s, b) ==> a == b
  }

  ghost predicate Referenced(s: State, id: string) {
    exists a :: IdAt(s, a) == Some(id)
  }

  /** Every id the metadata names was introduced by some command. */
  ghost predicate Known(s: State, used: set<string>) {
    && (forall a :: IdAt(s, a).Some? ==> IdAt(s, a).value in used)
    && (forall w :: w in s.writes ==> w in used && s.writes[w].lockId in used)
    && (forall q, l :: l in HoldersAt(s, q) ==> l in used)
  }

  ghost predicate Sound(s: State, used: set<string>) {
    LocksOk(s) && ReservationsOk(s) && Unique(s) && Known(s, used)
  }

  lemma {:induction false} InitialIsSound()
    ensures Sound(INITIAL, {})
  {
    forall a ensures IdAt(INITIAL, a) == None {
      if a.InFile? {
        assert FileAt(INITIAL.root, a.path) == None;
      }
    }
  }

  // ----- Where ids come from -----

  datatype Origin = Old(loc: Loc) | New(j: nat)

  /** The place an id found at `a` after a command had before it. */
  ghost function OriginOf(s: State, op: Op, a: Loc): Origin
    requires ReservationsOk(s)
  {
    if !Succeeds(s, op) then Old(a)
    else if op.BeginUploadOp? && a.InFile? && Target(op) == Ok(a.path) then New(a.i)
    else if op.BeginWriteOp? && a.InWrite? && a.writeId == op.writeId then New(1 + a.k)
    else if op.CommitWriteOp? && a.InFile? && Target(op) == Ok(a.path) then
      CommitHoldsTheLock(s, op);
      var slots := s.writes[op.writeId].slots;
      var base := PublishStart(CommittedFile(s.root, a.path).value.blocks, slots);
      if base <= a.i < base + |slots| then Old(InWrite(op.writeId, a.i - base)) else Old(a)
    else Old(a)
  }

  /** The id at an origin: in the state before, or in the command. */
  function OriginId(s: State, op: Op, origin: Origin): Option<string> {
    match origin
    case Old(loc) => IdAt(s, loc)
    case New(j) => if j < |NewIds(op)| then Some(NewIds(op)[j]) else None
  }

  lemma {:induction false} OriginInFile(s: State, op: Op, a: Loc)
    requires ReservationsOk(s) && a.InFile? && IdAt(Step(s, op).0, a).Some?
    ensures OriginId(s, op, OriginOf(s, op, a)) == IdAt(Step(s, op).0, a)
  {
    StepFiles(s, op, a.path);
    if Succeeds(s, op) && Target(op) == Ok(a.path) {
      if op.CommitWriteOp? {
        OriginInCommittedFile(s, op, a);
      } else if !op.BeginUploadOp? {
        OthersKeepIds(s, op);
      }
    }
  }

  /** Only an upload or a commit changes which blocks a file has. */
  lemma {:induction false} OthersKeepIds(s: State, op: Op)
    requires Succeeds(s, op) && Target(op).Ok? && !op.CommitWriteOp? && !op.BeginUploadOp?
    requires FileAfter(s, op).Some?
    ensures FileAt(s.root, Target(op).value).Some?
    ensures var blocks, after := FileAt(s.root, Target(op).value).value.blocks, FileAfter(s, op).value.blocks;
            |after| == |blocks| && forall i :: 0 <= i < |blocks| ==> after[i].id == blocks[i].id
  {
  }

  lemma {:induction false} OriginInCommittedFile(s: State, op: Op, a: Loc)
    requires ReservationsOk(s) && op.CommitWriteOp? && Succeeds(s, op) && a.InFile? && Target(op) == Ok(a.path)
    requires FileAt(Step(s, op).0.root, a.path) == FileAfter(s, op) && IdAt(Step(s, op).0, a).Some?
    ensures OriginId(s, op, OriginOf(s, op, a)) == IdAt(Step(s, op).0, a)
  {
    CommitHoldsTheLock(s, op);
    PublishedIds(FileAt(s.root, a.path).value.blocks, s.writes[op.writeId].slots, op.confirmed, a.i);
  }

  lemma {:induction false} OriginInWrite(s: State, op: Op, a: Loc)
    requires ReservationsOk(s) && a.InWrite? && IdAt(Step(s, op).0, a).Some?
    ensures OriginId(s, op, OriginOf(s, op, a)) == IdAt(Step(s, op).0, a)
  {
    StepWrites(s, op, a.writeId);
    if op.BeginWriteOp? && Succeeds(s, op) && a.writeId == op.writeId {
      BegunSlots(s, op);
    }
  }

  /** The slots of a new reservation carry the proposed ids, in order. */
  lemma {:induction false} BegunSlots(s: State, op: Op)
    requires op.BeginWriteOp? && Succeeds(s, op)
    ensures op.writeId in Step(s, op).0.writes
    ensures var slots := Step(s, op).0.writes[op.writeId].slots;
            && Consecutive(slots) && |slots| == |op.proposals|
            && forall k :: 0 <= k < |slots| ==> slots[k].blockId == op.proposals[k].id
  {
    var file := CommittedFile(s.root, Target(op).value).value;
    PlanHasShape(BlockSizes(file.blocks), BlockSizeOf(file, op.defaultBlockSize), op.offset, op.length);
  }

  /** Every id in the new state comes from somewhere: nothing is invented. */
  lemma {:induction false} IdsHaveOrigins(s: State, op: Op, a: Loc)
    requires ReservationsOk(s) && IdAt(Step(s, op).0, a).Some?
    ensures OriginId(s, op, OriginOf(s, op, a)) == IdAt(Step(s, op).0, a)
  {
    if a.InFile? {
      OriginInFile(s, op, a);
    } else {
      OriginInWrite(s, op, a);
    }
  }

  /** No id is copied: two places never share an origin. */
  lemma {:induction false} OriginsAreDistinct(s: State, op: Op, a: Loc, b: Loc)
    requires ReservationsOk(s) && IdAt(Step(s, op).0, a).Some? && IdAt(Step(s, op).0, b).Some?
    requires OriginOf(s, op, a) == OriginOf(s, op, b)
    ensures a == b
  {
    if op.CommitWriteOp? && Succeeds(s, op) {
      CommitHoldsTheLock(s, op);
    }
  }

  /** Ids stay put: an id that a file had can only be found in the same slot of the same path. */
  lemma {:induction false} FileIdsDoNotMove(s: State, op: Op, a: Loc, path: Path, i: nat)
    requires ReservationsOk(s) && OriginOf(s, op, a) == Old(InFile(path, i))
    ensures a == InFile(path, i)
  {
  }

  // ----- The invariant -----

  lemma {:induction false} ReservationsOkStep(s: State, op: Op)
    requires ReservationsOk(s)
    ensures ReservationsOk(Step(s, op).0)
  {
    forall w | w in Step(s, op).0.writes ensures Consecutive(Step(s, op).0.writes[w].slots) {
      StepWrites(s, op, w);
      if op.BeginWriteOp? && Succeeds(s, op) && op.writeId == w {
        BegunSlots(s, op);
      }
    }
  }

  lemma {:induction false} UniqueStep(s: State, used: set<string>, op: Op)
    requires ReservationsOk(s) && Unique(s) && Known(s, used) && FreshOp(used, op)
    ensures Unique(Step(s, op).0)
  {
    var s' := Step(s, op).0;
    forall a, b | IdAt(s', a).Some? && IdAt(s', a) == IdAt(s', b) ensures a == b {
      IdsHaveOrigins(s, op, a);
      IdsHaveOrigins(s, op, b);
      SameIdSameOrigin(s, used, op, OriginOf(s, op, a), OriginOf(s, op, b));
      OriginsAreDistinct(s, op, a, b);
    }
  }

  lemma {:induction false} SameIdSameOrigin(s: State, used: set<string>, op: Op, x: Origin, y: Origin)
    requires Unique(s) && Known(s, used) && FreshOp(used, op)
    requires OriginId(s, op, x).Some? && OriginId(s, op, x) == OriginId(s, op, y)
    ensures x == y
  {
  }

  lemma {:induction false} KnownStep(s: State, used: set<string>, op: Op)
    requires LocksOk(s) && ReservationsOk(s) && Known(s, used)
    ensures Known(Step(s, op).0, Learn(used, op))
  {
    var s' := Step(s, op).0;
    var used' := Learn(used, op);
    forall a | IdAt(s', a).Some? ensures IdAt(s', a).value in used' {
      IdsHaveOrigins(s, op, a);
    }
    forall w | w in s'.writes ensures w in used' && s'.writes[w].lockId in used' {
      KnownWrite(s, used, op, w);
    }
    forall q, l | l in HoldersAt(s', q) ensures l in used' {
      KnownHolder(s, used, op, q, l);
    }
  }

  lemma {:induction false} KnownHolder(s: State, used: set<string>, op: Op, q: Path, l: string)
    requires Known(s, used) && l in HoldersAt(Step(s, op).0, q)
    ensures l in Learn(used, op)
  {
    StepLocks(s, op, q);
    if GrantsLock(s, op, q, l) {
      assert NewIds(op)[0] == l;
    }
  }

  /** A new reservation names a lock that is held. */
  lemma {:induction false} KnownWrite(s: State, used: set<string>, op: Op, w: string)
    requires Known(s, used) && w in Step(s, op).0.writes
    ensures w in Learn(used, op) && Step(s, op).0.writes[w].lockId in Learn(used, op)
  {
    StepWrites(s, op, w);
    if op.BeginWriteOp? && Succeeds(s, op) && op.writeId == w {
      BegunReservation(s, op);
      assert op.lockId in HoldersAt(Step(s, op).0, Target(op).value);
      KnownHolder(s, used, op, Target(op).value, op.lockId);
      assert NewIds(op)[0] == w;
    }
  }

  lemma {:induction false} SoundStep(s: State, used: set<string>, op: Op)
    requires Sound(s, used) && FreshOp(used, op)
    ensures Sound(Step(s, op).0, Learn(used, op))
  {
    LocksOkAfter(s, op);
    ReservationsOkStep(s, op);
    UniqueStep(s, used, op);
    KnownStep(s, used, op);
  }

  /** Conservation over every run. */
  lemma {:induction false} SoundRun(s: State, used: set<string>, ops: seq<Op>)
    requires Sound(s, used) && FreshRun(used, ops)
    ensures Sound(Run(s, ops), LearnAll(used, ops))
    decreases |ops|
  {
    if ops != [] {
      SoundStep(s, used, ops[0]);
      SoundRun(Step(s, ops[0]).0, Learn(used, ops[0]), ops[1..]);
    }
  }

  // ----- Ids that left -----

  lemma {:induction false} DeadStaysDead(s: State, used: set<string>, op: Op, id: string)
    requires ReservationsOk(s) && FreshOp(used, op) && id in used && !Referenced(s, id)
    ensures !Referenced(Step(s, op).0, id)
  {
    forall a ensures IdAt(Step(s, op).0, a) != Some(id) {
      if IdAt(Step(s, op).0, a) == Some(id) {
        IdsHaveOrigins(s, op, a);
      }
    }
  }

  /** An id that was introduced and is named nowhere is never named again. */
  lemma {:induction false} DeadForever(s: State, used: set<string>, ops: seq<Op>, id: string)
    requires Sound(s, used) && FreshRun(used, ops) && id in used && !Referenced(s, id)
    ensures !Referenced(Run(s, ops), id)
    decreases |ops|
  {
    if ops != [] {
      DeadStaysDead(s, used, ops[0], id);
      SoundStep(s, used, ops[0]);
      DeadForever(Step(s, ops[0]).0, Learn(used, ops[0]), ops[1..], id);
    }
  }

  /** The command takes the block in slot `i` of `path` out of the metadata: it removes the
      file, drops or takes over the upload, or publishes another block in that slot. */
  ghost predicate Takes(s: State, op: Op, path: Path, i: nat) {
    && Succeeds(s, op) && Target(op) == Ok(path)
    && (op.RemoveFileOp? || op.AbortUploadOp? || op.BeginUploadOp? || (op.CommitWriteOp? && Publishes(s, op, path, i)))
  }

  ghost predicate Publishes(s: State, op: Op, path: Path, i: nat)
    requires op.CommitWriteOp?
  {
    && op.writeId in s.writes && s.writes[op.writeId].slots != [] && CommittedFile(s.root, path).Ok?
    && var slots := s.writes[op.writeId].slots;
       var base := PublishStart(CommittedFile(s.root, path).value.blocks, slots);
       base <= i < base + |slots|
  }

  lemma {:induction false} KeptUnlessTaken(s: State, op: Op, path: Path, i: nat)
    requires ReservationsOk(s) && IdAt(s, InFile(path, i)).Some? && !Takes(s, op, path, i)
    ensures IdAt(Step(s, op).0, InFile(path, i)) == IdAt(s, InFile(path, i))
  {
    StepFiles(s, op, path);
    if Succeeds(s, op) && Target(op) == Ok(path) {
      if op.CommitWriteOp? {
        KeptByCommit(s, op, path, i);
      } else {
        KeptByTheRest(s, op, path);
      }
    }
  }

  lemma {:induction false} KeptByTheRest(s: State, op: Op, path: Path)
    requires Succeeds(s, op) && Target(op) == Ok(path) && FileAt(s.root, path).Some?
    requires !op.CommitWriteOp? && !op.RemoveFileOp? && !op.AbortUploadOp? && !op.BeginUploadOp?
    ensures FileAfter(s, op).Some?
    ensures var blocks, after := FileAt(s.root, path).value.blocks, FileAfter(s, op).value.blocks;
            |after| == |blocks| && forall i :: 0 <= i < |blocks| ==> after[i].id == blocks[i].id
  {
  }

  lemma {:induction false} KeptByCommit(s: State, op: Op, path: Path, i: nat)
    requires ReservationsOk(s) && op.CommitWriteOp? && Succeeds(s, op) && Target(op) == Ok(path)
    requires FileAt(Step(s, op).0.root, path) == FileAfter(s, op)
    requires IdAt(s, InFile(path, i)).Some? && !Publishes(s, op, path, i)
    ensures IdAt(Step(s, op).0, InFile(path, i)) == IdAt(s, InFile(path, i))
  {
    CommitHoldsTheLock(s, op);
    var blocks, slots := CommittedFile(s.root, path).value.blocks, s.writes[op.writeId].slots;
    PublishIsOverlay(blocks, slots, op.confirmed);
    PublishedIds(blocks, slots, op.confirmed, i);
  }

  /** A block of a file stays in its slot or leaves the metadata, and it leaves exactly when
      a command takes it. */
  lemma {:induction false} LeavesIffTaken(s: State, used: set<string>, op: Op, path: Path, i: nat, id: string)
    requires Sound(s, used) && FreshOp(used, op) && IdAt(s, InFile(path, i)) == Some(id)
    ensures Referenced(Step(s, op).0, id) <==> !Takes(s, op, path, i)
    ensures !Takes(s, op, path, i) ==> IdAt(Step(s, op).0, InFile(path, i)) == Some(id)
  {
    if Takes(s, op, path, i) {
      forall a ensures IdAt(Step(s, op).0, a) != Some(id) {
        if IdAt(Step(s, op).0, a) == Some(id) {
          IdsHaveOrigins(s, op, a);
          SameIdSameOrigin(s, used, op, OriginOf(s, op, a), Old(InFile(path, i)));
          FileIdsDoNotMove(s, op, a, path, i);
          TakenIsElsewhere(s, op, path, i);
        }
      }
    } else {
      KeptUnlessTaken(s, op, path, i);
    }
  }

  lemma {:induction false} TakenIsElsewhere(s: State, op: Op, path: Path, i: nat)
    requires ReservationsOk(s) && Takes(s, op, path, i)
    ensures IdAt(Step(s, op).0, InFile(path, i)).None? || OriginOf(s, op, InFile(path, i)) != Old(InFile(path, i))
  {
    StepFiles(s, op, path);
  }

  /** Some command of the run takes the block. */
  ghost predicate TakenIn(s: State, ops: seq<Op>, path: Path, i: nat)
    decreases |ops|
  {
    ops != [] && (Takes(s, ops[0], path, i) || TakenIn(Step(s, ops[0]).0, ops[1..], path, i))
  }

  /** Over any run: a block of a file is gone at the end if and only if some command took it. */
  lemma {:induction false} GoneIffTaken(s: State, used: set<string>, ops: seq<Op>, path: Path, i: nat, id: string)
    requires Sound(s, used) && FreshRun(used, ops) && IdAt(s, InFile(path, i)) == Some(id)
    ensures !Referenced(Run(s, ops), id) <==> TakenIn(s, ops, path, i)
    decreases |ops|
  {
    if ops == [] {
      assert Referenced(s, id);
    } else {
      LeavesIffTaken(s, used, ops[0], path, i, id);
      SoundStep(s, used, ops[0]);
      if Takes(s, ops[0], path, i) {
        DeadForever(Step(s, ops[0]).0, Learn(used, ops[0]), ops[1..], id);
      } else {
        GoneIffTaken(Step(s, ops[0]).0, Learn(used, ops[0]), ops[1..], path, i, id);
      }
    }
  }

  /** The blocks a command's outcome hands to the servicer for deletion. */
  function Discarded(value: Value): seq<BlockRecord> {
    match value
    case Removed(blocks) => blocks
    case Uploading(_, stale) => stale
    case Published(_, replaced) => replaced
    case Aborted(reserved) => reserved
    case _ => []
  }

  /** Where a discarded block was before the command. */
  ghost predicate LeavesFrom(s: State, op: Op, a: Loc, id: string)
    requires ReservationsOk(s)
  {
    IdAt(s, a) == Some(id) && forall b :: IdAt(Step(s, op).0, b).Some? ==> OriginOf(s, op, b) != Old(a)
  }

  lemma {:induction false} DiscardedHadAPlace(s: State, op: Op, k: nat)
    requires ReservationsOk(s) && Succeeds(s, op) && k < |Discarded(Step(s, op).1.value)|
    ensures exists a :: LeavesFrom(s, op, a, Discarded(Step(s, op).1.value)[k].id)
  {
    if op.RemoveFileOp? {
      RemovedHadAPlace(s, op, k);
    } else if op.BeginUploadOp? {
      UploadReplacesOnlyExpired(s, op);
      assert LeavesFrom(s, op, InFile(Target(op).value, k), Discarded(Step(s, op).1.value)[k].id);
    } else if op.CommitWriteOp? {
      ReplacedHadAPlace(s, op, k);
    } else if op.AbortWriteOp? {
      assert LeavesFrom(s, op, InWrite(op.writeId, k), Discarded(Step(s, op).1.value)[k].id);
    } else {
      OthersDiscardNothing(s, op);
    }
  }

  /** Only four commands hand blocks over for deletion. */
  lemma {:induction false} OthersDiscardNothing(s: State, op: Op)
    requires !op.RemoveFileOp? && !op.BeginUploadOp? && !op.CommitWriteOp? && !op.AbortWriteOp?
    ensures Succeeds(s, op) ==> Discarded(Step(s, op).1.value) == []
  {
    if OnlyTouchesTree(op) {
      TreeCommandsDiscardNothing(s, op);
    }
  }

  lemma {:induction false} TreeCommandsDiscardNothing(s: State, op: Op)
    requires OnlyTouchesTree(op) && !op.BeginUploadOp?
    ensures Succeeds(s, op) ==> Discarded(Step(s, op).1.value) == []
  {
  }

  lemma {:induction false} RemovedHadAPlace(s: State, op: Op, k: nat)
    requires ReservationsOk(s) && op.RemoveFileOp? && Succeeds(s, op) && k < |Discarded(Step(s, op).1.value)|
    ensures LeavesFrom(s, op, InFile(Target(op).value, k), Discarded(Step(s, op).1.value)[k].id)
  {
    RemovalFindsFile(s, op);
    StepFiles(s, op, Target(op).value);
  }

  lemma {:induction false} CommitOutcome(s: State, op: Op)
    requires op.CommitWriteOp? && Succeeds(s, op)
    ensures CommittedFile(s.root, Target(op).value).Ok? && op.writeId in s.writes
    ensures |s.writes[op.writeId].slots| == |op.confirmed|
    ensures var file := CommittedFile(s.root, Target(op).value).value;
            Step(s, op).1.value
            == Published(file.version + 1, Publish(file.blocks, s.writes[op.writeId].slots, op.confirmed).1)
  {
  }

  lemma {:induction false} ReplacedHadAPlace(s: State, op: Op, k: nat)
    requires ReservationsOk(s) && op.CommitWriteOp? && Succeeds(s, op) && k < |Discarded(Step(s, op).1.value)|
    ensures exists a :: LeavesFrom(s, op, a, Discarded(Step(s, op).1.value)[k].id)
  {
    CommitOutcome(s, op);
    var blocks, slots := CommittedFile(s.root, Target(op).value).value.blocks, s.writes[op.writeId].slots;
    ReplacedBlocks(blocks, slots, op.confirmed, k);
    CoveredSlotLeaves(s, op, PublishStart(blocks, slots) + k);
  }

  lemma {:induction false} CoveredSlotLeaves(s: State, op: Op, i: nat)
    requires ReservationsOk(s) && op.CommitWriteOp? && Succeeds(s, op)
    requires CommittedFile(s.root, Target(op).value).Ok? && op.writeId in s.writes
    requires var base := PublishStart(CommittedFile(s.root, Target(op).value).value.blocks, s.writes[op.writeId].slots);
             base <= i < base + |s.writes[op.writeId].slots|
    requires i < |CommittedFile(s.root, Target(op).value).value.blocks|
    ensures LeavesFrom(s, op, InFile(Target(op).value, i), CommittedFile(s.root, Target(op).value).value.blocks[i].id)
  {
  }

  /** Everything a command hands over for deletion is already unreferenced, and known. */
  lemma {:induction false} DiscardedIsDead(s: State, used: set<string>, op: Op, k: nat)
    requires Sound(s, used) && FreshOp(used, op)
    requires Succeeds(s, op) && k < |Discarded(Step(s, op).1.value)|
    ensures !Referenced(Step(s, op).0, Discarded(Step(s, op).1.value)[k].id)
    ensures Discarded(Step(s, op).1.value)[k].id in used
  {
    var id := Discarded(Step(s, op).1.value)[k].id;
    DiscardedHadAPlace(s, op, k);
    var a :| LeavesFrom(s, op, a, id);
    forall b ensures IdAt(Step(s, op).0, b) != Some(id) {
      if IdAt(Step(s, op).0, b) == Some(id) {
        IdsHaveOrigins(s, op, b);
        SameIdSameOrigin(s, used, op, OriginOf(s, op, b), Old(a));
      }
    }
  }

  /** Deleting after Remove, a replaced upload, CommitWrite or AbortWrite is safe at any
      later time: no command that follows names those blocks again. */
  lemma {:induction false} DiscardedForever(s: State, used: set<string>, op: Op, k: nat, later: seq<Op>)
    requires Sound(s, used) && FreshOp(used, op) && FreshRun(Learn(used, op), later)
    requires Succeeds(s, op) && k < |Discarded(Step(s, op).1.value)|
    ensures !Referenced(Run(Step(s, op).0, later), Discarded(Step(s, op).1.value)[k].id)
  {
    DiscardedIsDead(s, used, op, k);
    SoundStep(s, used, op);
    DeadForever(Step(s, op).0, Learn(used, op), later, Discarded(Step(s, op).1.value)[k].id);
  }

  // ----- Nothing is forgotten -----

  ghost predicate BlockAt(s: State, path: Path, i: nat, block: BlockRecord) {
    FileAt(s.root, path).Some? && i < |FileAt(s.root, path).value.blocks|
        && FileAt(s.root, path).value.blocks[i] == block
  }

  lemma {:induction false} TakenIsHandedBack(s: State, op: Op, path: Path, i: nat, block: BlockRecord)
    requires ReservationsOk(s) && BlockAt(s, path, i, block) && Takes(s, op, path, i) && !op.AbortUploadOp?
    ensures block in Discarded(Step(s, op).1.value)
  {
    if op.RemoveFileOp? {
      RemovalFindsFile(s, op);
    } else if op.BeginUploadOp? {
      UploadReplacesOnlyExpired(s, op);
    } else {
      CommitHandsBack(s, op, path, i, block);
    }
  }

  lemma {:induction false} CommitHandsBack(s: State, op: Op, path: Path, i: nat, block: BlockRecord)
    requires ReservationsOk(s) && BlockAt(s, path, i, block) && op.CommitWriteOp? && Takes(s, op, path, i)
    ensures block in Discarded(Step(s, op).1.value)
  {
    CommitOutcome(s, op);
    var blocks, slots := CommittedFile(s.root, path).value.blocks, s.writes[op.writeId].slots;
    PublishIsOverlay(blocks, slots, op.confirmed);
    var replaced := Publish(blocks, slots, op.confirmed).1;
    assert replaced[i - PublishStart(blocks, slots)] == block;
  }

  /** A block of a file is handed back for deletion, with all its nodes, if and only if the
      command takes it out of the metadata; only AbortUpload, whose handler reads the blocks
      itself, hands nothing back. */
  lemma {:induction false} HandedBackIffGone(s: State, used: set<string>, op: Op, path: Path, i: nat,
        block: BlockRecord)
    requires Sound(s, used) && FreshOp(used, op) && Succeeds(s, op) && BlockAt(s, path, i, block)
    ensures block in Discarded(Step(s, op).1.value) <==> !Referenced(Step(s, op).0, block.id) && !op.AbortUploadOp?
  {
    assert IdAt(s, InFile(path, i)) == Some(block.id);
    LeavesIffTaken(s, used, op, path, i, block.id);
    if Takes(s, op, path, i) && !op.AbortUploadOp? {
      TakenIsHandedBack(s, op, path, i, block);
    }
    if block in Discarded(Step(s, op).1.value) {
      var k :| 0 <= k < |Discarded(Step(s, op).1.value)| && Discarded(Step(s, op).1.value)[k] == block;
      DiscardedIsDead(s, used, op, k);
      if op.AbortUploadOp? {
        OthersDiscardNothing(s, op);
      }
    }
  }

  /** An abort of a write hands back every block that was reserved for it, if its lease still
      runs. */
  lemma {:induction false} ReservedIsHandedBack(s: State, op: Op, k: nat)
    requires op.AbortWriteOp? && Succeeds(s, op) && op.writeId in s.writes && k < |s.writes[op.writeId].slots|
    requires Target(op) == Ok(s.writes[op.writeId].path) && op.now < s.writes[op.writeId].expires
    ensures var slot := s.writes[op.writeId].slots[k];
            BlockRecord(slot.blockId, slot.addresses, "", slot.size, false) in Discarded(Step(s, op).1.value)
  {
    assert op.writeId in CleanWrites(s.writes, op.now);
    var slot := s.writes[op.writeId].slots[k];
    assert ReservedBlocks(s.writes[op.writeId].slots)[k]
        == BlockRecord(slot.blockId, slot.addresses, "", slot.size, false);
  }
}
