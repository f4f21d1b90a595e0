/** D-P4 in every reachable state: all blocks of a committed file are full except the
    last, and a commit makes the file exactly as long as the write reaches. */
module Sizes {
  import opened Common
  import opened Tree
  import opened Chunking
  import opened WritePlan
  import opened Mutations
  import opened Effects
  import opened History
  import opened Locking
  import opened Conservation

  /** Size of block `i` of `n` as BeginUpload announces it. */
  predicate AnnouncedSize(size: int, i: nat, n: nat, blockSize: nat) {
    1 <= size <= blockSize && (i < n - 1 ==> size == blockSize)
  }

  ghost predicate FileOk(file: FileRecord) {
    && file.blockSize > 0
    && (file.committed ==> Layout(BlockSizes(file.blocks), file.blockSize))
    && (!file.committed ==>
          forall i :: 0 <= i < |file.blocks| && file.blocks[i].confirmed ==>
            AnnouncedSize(file.blocks[i].size, i, |file.blocks|, file.blockSize))
  }

  ghost predicate FilesOk(s: State) {
    forall q :: FileAt(s.root, q).Some? ==> FileOk(FileAt(s.root, q).value)
  }

  /** The reservation was planned on exactly this list of blocks. */
  ghost predicate PlannedOn(file: FileRecord, r: Reservation, offset: int, length: int) {
    && r.blockSize == file.blockSize
    && PlanWriteSlots(BlockSizes(file.blocks), r.blockSize, offset, length).Ok?
    && var plan := PlanWriteSlots(BlockSizes(file.blocks), r.blockSize, offset, length).value;
       && |plan| == |r.slots|
       && forall k :: 0 <= k < |plan| ==> r.slots[k].index == plan[k].index && r.slots[k].size == plan[k].size
  }

  /** While its lock is held and the version has not moved, a reservation fits its file. */
  ghost predicate BoundTo(s: State, r: Reservation) {
    r.lockId in HoldersAt(s, r.path) && CommittedFile(s.root, r.path).Ok? ==>
      var file := CommittedFile(s.root, r.path).value;
      && r.baseVersion <= file.version
      && (r.baseVersion == file.version ==> exists offset, length :: PlannedOn(file, r, offset, length))
  }

  ghost predicate ReservationsBound(s: State) {
    forall w :: w in s.writes ==> BoundTo(s, s.writes[w])
  }

  /** What the servicer and the client keep to: uploads have a block size, and confirm the
      sizes that were announced. */
  ghost predicate Disciplined(s: State, op: Op) {
    && (op.BeginUploadOp? ==> op.blockSize > 0)
    && (op.ConfirmBlockOp? && Succeeds(s, op) ==>
          var file := FileAt(s.root, Target(op).value);
          file.Some? && AnnouncedSize(op.size, IndexOfBlock(file.value.blocks, op.blockId),
                                      |file.value.blocks|, file.value.blockSize))
  }

  lemma {:induction false} SameDataSameSizes(f: FileRecord, g: FileRecord)
    requires SameData(f, g)
    ensures BlockSizes(f.blocks) == BlockSizes(g.blocks)
  {
  }

  // ----- Reservations stay bound -----

  lemma {:induction false} BegunIsPlanned(s: State, op: Op)
    requires FilesOk(s) && op.BeginWriteOp? && Succeeds(s, op)
    ensures op.writeId in Step(s, op).0.writes && CommittedFile(s.root, Target(op).value).Ok?
    ensures PlannedOn(CommittedFile(s.root, Target(op).value).value, Step(s, op).0.writes[op.writeId], op.offset,
                      op.length)
  {
    assert FileOk(CommittedFile(s.root, Target(op).value).value);
  }

  lemma {:induction false} BoundStep(s: State, used: set<string>, op: Op, w: string)
    requires Sound(s, used) && FilesOk(s) && ReservationsBound(s) && FreshOp(used, op)
    requires w in Step(s, op).0.writes
    ensures BoundTo(Step(s, op).0, Step(s, op).0.writes[w])
  {
    var s' := Step(s, op).0;
    var r := s'.writes[w];
    StepWrites(s, op, w);
    if op.BeginWriteOp? && Succeeds(s, op) && op.writeId == w {
      BegunReservation(s, op);
      BegunIsPlanned(s, op);
    } else if r.lockId in HoldersAt(s', r.path) {
      FreshOpIntroducesNothingUsed(used, op, r.lockId);
      HolderStep(s, op, r.path, r.lockId);
      assert BoundTo(s, r);
      BoundAfterHolderStep(s, s', r);
    }
  }

  lemma {:induction false} BoundAfterHolderStep(s: State, s': State, r: Reservation)
    requires BoundTo(s, r) && r.lockId in HoldersAt(s, r.path)
    requires CommittedFile(s.root, r.path).Ok? && CommittedFile(s'.root, r.path).Ok?
    requires var f, f' := CommittedFile(s.root, r.path).value, CommittedFile(s'.root, r.path).value;
             f'.version == f.version + 1 || SameData(f, f')
    ensures BoundTo(s', r)
  {
    var f, f' := CommittedFile(s.root, r.path).value, CommittedFile(s'.root, r.path).value;
    if SameData(f, f') && r.baseVersion == f.version {
      SameDataSameSizes(f, f');
      var offset, length :| PlannedOn(f, r, offset, length);
      assert PlannedOn(f', r, offset, length);
    }
  }

  // ----- Files stay laid out -----

  /** The sizes of a block list after publishing a reservation planned on it. */
  lemma {:induction false} PublishedSizes(file: FileRecord, r: Reservation, confirmed: seq<Confirmed>, offset: int,
        length: int)
    requires Layout(BlockSizes(file.blocks), file.blockSize) && PlannedOn(file, r, offset, length)
    requires Consecutive(r.slots) && ConfirmsReservation(confirmed, r.slots)
    ensures var after := BlockSizes(Publish(file.blocks, r.slots, confirmed).0);
            Layout(after, r.blockSize) && Sum(after) == Max(Sum(BlockSizes(file.blocks)), offset + length)
  {
    var sizes := BlockSizes(file.blocks);
    var plan := PlanWriteSlots(sizes, r.blockSize, offset, length).value;
    PlanKeepsLayout(sizes, r.blockSize, offset, length);
    PlanHasShape(sizes, r.blockSize, offset, length);
    PublishIsOverlay(file.blocks, r.slots, confirmed);
    var first := offset / r.blockSize;
    assert r.slots[0].index == plan[0].index == first;
    SizesOfOverlay(file.blocks, first, NewBlocksOf(r.slots, confirmed), sizes, WritePlan.Sizes(plan));
  }

  lemma {:induction false} SizesOfOverlay(blocks: seq<BlockRecord>, first: nat, news: seq<BlockRecord>, sizes: seq<int>,
        newSizes: seq<int>)
    requires first <= |blocks| && sizes == BlockSizes(blocks)
    requires |newSizes| == |news| && forall k :: 0 <= k < |news| ==> newSizes[k] == news[k].size
    ensures BlockSizes(Overlay(blocks, first, news)) == Overlay(sizes, first, newSizes)
  {
  }

  /** A commit keeps every block but the last full, and the file grows exactly to the end
      of the write. */
  lemma {:induction false} CommitKeepsLayout(s: State, op: Op)
    requires FilesOk(s) && ReservationsOk(s) && ReservationsBound(s) && op.CommitWriteOp? && Succeeds(s, op)
    ensures CommittedFile(s.root, Target(op).value).Ok? && FileAfter(s, op).Some?
    ensures var file, file' := CommittedFile(s.root, Target(op).value).value, FileAfter(s, op).value;
            && Layout(BlockSizes(file'.blocks), file'.blockSize)
            && exists offset, length :: PlannedOn(file, s.writes[op.writeId], offset, length)
                 && Sum(BlockSizes(file'.blocks)) == Max(Sum(BlockSizes(file.blocks)), offset + length)
  {
    CommitHoldsTheLock(s, op);
    var offset, length := CommittedPlan(s, op);
    PublishedSizes(CommittedFile(s.root, Target(op).value).value, s.writes[op.writeId], op.confirmed, offset, length);
    assert PlannedOn(CommittedFile(s.root, Target(op).value).value, s.writes[op.writeId], offset, length);
  }

  /** What the commit publishes was planned on the file as it is. */
  lemma {:induction false} CommittedPlan(s: State, op: Op) returns (offset: int, length: int)
    requires FilesOk(s) && ReservationsOk(s) && ReservationsBound(s) && op.CommitWriteOp? && Succeeds(s, op)
    ensures CommittedFile(s.root, Target(op).value).Ok? && op.writeId in s.writes
    ensures var file, r := CommittedFile(s.root, Target(op).value).value, s.writes[op.writeId];
            Layout(BlockSizes(file.blocks), file.blockSize) && PlannedOn(file, r, offset, length)
  {
    CommitHoldsTheLock(s, op);
    var r := s.writes[op.writeId];
    var file := CommittedFile(s.root, r.path).value;
    assert FileOk(file);
    assert BoundTo(s, r);
    offset, length :| PlannedOn(file, r, offset, length);
  }

  lemma {:induction false} CompletedLayout(file: FileRecord)
    requires FileOk(file) && !file.committed
    requires forall i :: 0 <= i < |file.blocks| ==> file.blocks[i].confirmed
    ensures Layout(BlockSizes(file.blocks), file.blockSize)
  {
    var sizes := BlockSizes(file.blocks);
    forall i | 0 <= i < |sizes| ensures AnnouncedSize(sizes[i], i, |sizes|, file.blockSize) {
      assert file.blocks[i].confirmed;
    }
  }

  lemma {:induction false} FileOkAfter(s: State, op: Op)
    requires FilesOk(s) && ReservationsOk(s) && ReservationsBound(s) && Disciplined(s, op)
    requires Succeeds(s, op) && Target(op).Ok? && FileAfter(s, op).Some?
    ensures FileOk(FileAfter(s, op).value)
  {
    if op.CommitWriteOp? {
      CommitKeepsLayout(s, op);
    } else if op.BeginUploadOp? {
      assert !FileAfter(s, op).value.committed;
    } else {
      var file := FileAt(s.root, Target(op).value).value;
      assert FileOk(file);
      if op.CompleteUploadOp? {
        CompletedLayout(file);
      } else if op.UpdateReplicasOp? {
        assert BlockSizes(FileAfter(s, op).value.blocks) == BlockSizes(file.blocks);
      } else {
        OthersKeepFileOk(s, op);
      }
    }
  }

  lemma {:induction false} OthersKeepFileOk(s: State, op: Op)
    requires Disciplined(s, op) && Succeeds(s, op) && Target(op).Ok? && FileAfter(s, op).Some?
    requires !op.CommitWriteOp? && !op.BeginUploadOp? && !op.CompleteUploadOp? && !op.UpdateReplicasOp?
    requires FileAt(s.root, Target(op).value).Some? && FileOk(FileAt(s.root, Target(op).value).value)
    ensures FileOk(FileAfter(s, op).value)
  {
  }

  ghost predicate LaidOut(s: State, used: set<string>) {
    Sound(s, used) && FilesOk(s) && ReservationsBound(s)
  }

  lemma {:induction false} LaidOutStep(s: State, used: set<string>, op: Op)
    requires LaidOut(s, used) && FreshOp(used, op) && Disciplined(s, op)
    ensures LaidOut(Step(s, op).0, Learn(used, op))
  {
    SoundStep(s, used, op);
    var s' := Step(s, op).0;
    forall q | FileAt(s'.root, q).Some? ensures FileOk(FileAt(s'.root, q).value) {
      StepFiles(s, op, q);
      if Succeeds(s, op) && Target(op) == Ok(q) {
        FileOkAfter(s, op);
      }
    }
    forall w | w in s'.writes ensures BoundTo(s', s'.writes[w]) {
      BoundStep(s, used, op, w);
    }
  }

  ghost predicate DisciplinedRun(s: State, ops: seq<Op>)
    decreases |ops|
  {
    ops == [] || (Disciplined(s, ops[0]) && DisciplinedRun(Step(s, ops[0]).0, ops[1..]))
  }

  /** D-P4 over every run. */
  lemma {:induction false} LaidOutRun(s: State, used: set<string>, ops: seq<Op>)
    requires LaidOut(s, used) && FreshRun(used, ops) && DisciplinedRun(s, ops)
    ensures LaidOut(Run(s, ops), LearnAll(used, ops))
    decreases |ops|
  {
    if ops != [] {
      LaidOutStep(s, used, ops[0]);
      LaidOutRun(Step(s, ops[0]).0, Learn(used, ops[0]), ops[1..]);
    }
  }

  /** Every state the machine can reach from an empty cluster: lock entries belong to
      committed files, ids are in one place each, and every committed file is laid out. */
  lemma {:induction false} ReachableIsLaidOut(ops: seq<Op>)
    requires FreshRun({}, ops) && DisciplinedRun(INITIAL, ops)
    ensures LaidOut(Run(INITIAL, ops), LearnAll({}, ops))
  {
    InitialIsSound();
    forall q ensures FileAt(INITIAL.root, q) == None {
      assert Lookup(INITIAL.root, q).Some? ==> q == [];
    }
    LaidOutRun(INITIAL, {}, ops);
  }
}
