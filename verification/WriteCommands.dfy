/** The copy-on-write commands from outside: when each succeeds, which error comes first
    otherwise, what BeginWrite tells the client, and what CommitWrite publishes, block by
    block. */
module WriteCommands {
  import opened Common
  import opened Paths
  import opened Chunking
  import opened Tree
  import opened WritePlan
  import opened Mutations
  import opened Effects
  import opened Conservation
  import opened Sizes
  import opened Entries
  import opened LockCommands
  import opened NamespaceCommands
  import opened UploadCommands

  /** The reservations whose lease ends after `now`. */
  function OnlyLiveWrites(s: State, now: real): map<string, Reservation> {
    map w | w in s.writes && now < s.writes[w].expires :: s.writes[w]
  }

  lemma {:induction false} CleanedWrites(s: State, now: real)
    ensures CleanWrites(s.writes, now) == OnlyLiveWrites(s, now)
  {
  }

  predicate HoldsAlone(s: State, p: Path, l: string, now: real) {
    l in LiveAt(s, p, now) && s.locks[p].mode.Exclusive?
  }

  lemma {:induction false} HoldsWriteLockExactly(s: State, p: Path, l: string, now: real)
    ensures HoldsWriteLock(OnlyLive(s, p, now), p, l) <==> HoldsAlone(s, p, l, now)
  {
    CleanedIsOnlyLive(s, p, now);
  }

  // ----- Reserving -----

  /** Files that do not remember their block size had one full block if they have two. */
  function BlockSizeAt(file: FileRecord, default_: nat): int {
    if file.blockSize > 0 then file.blockSize
    else if |file.blocks| < 2 then default_
    else if file.blocks[0].size < 0 then 0 else file.blocks[0].size
  }

  /** The write is of at least a byte, within the file or right at its end. */
  ghost predicate Writable(file: FileRecord, op: Op)
    requires op.BeginWriteOp?
  {
    op.length > 0 && 0 <= op.offset <= Sum(BlockSizes(file.blocks))
  }

  /** One proposal for each block from that of the first byte to that of the last. */
  ghost predicate Proposed(op: Op, blockSize: int)
    requires op.BeginWriteOp? && blockSize > 0 && op.offset >= 0 && op.length > 0
  {
    && |op.proposals| == (op.offset + op.length - 1) / blockSize - op.offset / blockSize + 1
    && forall k :: 0 <= k < |op.proposals| ==> op.proposals[k].index == op.offset / blockSize + k
  }

  /** What stops a write before its lock is looked at. */
  function WriterError(s: State, path: string, caller: Option<Caller>): Option<Error> {
    if Parts(path).Err? then Some(InvalidPath)
    else if !Committed(s.root, Parts(path).value) then Some(PathNotFound)
    else if !Permits(FileOf(s.root, Parts(path).value).attributes, caller, Changing) then Some(AccessDenied)
    else None
  }

  /** What stops it once its lock is found. */
  ghost function ReservationError(s: State, op: Op, file: FileRecord): Option<Error>
    requires op.BeginWriteOp?
  {
    if op.writeId in OnlyLiveWrites(s, op.now) || file.version != op.baseVersion then Some(Conflict)
    else if !Writable(file, op) then Some(InvalidPath)
    else if BlockSizeAt(file, op.defaultBlockSize) == 0 then Some(Internal)
    else if !Proposed(op, BlockSizeAt(file, op.defaultBlockSize)) then Some(Conflict)
    else None
  }

  /** A new block of the write: the proposed id and nodes, full unless it ends the file. */
  ghost predicate SlotOf(slot: WriteSlot, op: Op, file: FileRecord, k: nat)
    requires op.BeginWriteOp? && k < |op.proposals|
  {
    var blockSize, size := BlockSizeAt(file, op.defaultBlockSize), Sum(BlockSizes(file.blocks));
    && slot.index == op.proposals[k].index && slot.blockId == op.proposals[k].id
    && slot.addresses == op.proposals[k].addresses
    && slot.size == Min(blockSize, Max(size, op.offset + op.length) - slot.index * blockSize)
  }

  /** What the client is told of it: the block it replaces, with the nodes that have it. */
  ghost predicate Told(view: SlotView, slot: WriteSlot, blocks: seq<BlockRecord>) {
    && view.index == slot.index && view.newId == slot.blockId && view.newAddresses == slot.addresses
    && view.newSize == slot.size
    && (if slot.index < |blocks|
        then view.oldId == blocks[slot.index].id && view.oldSize == blocks[slot.index].size
             && view.oldAddresses == blocks[slot.index].addresses
        else view.oldId == "" && view.oldSize == 0 && view.oldAddresses == [])
  }

  /** The reservation made, for the file as it is. */
  ghost predicate ReservedFor(r: Reservation, op: Op, p: Path, file: FileRecord)
    requires op.BeginWriteOp?
  {
    && r.path == p && r.baseVersion == file.version && r.lockId == op.lockId && r.expires == op.now + op.lease
    && r.blockSize == BlockSizeAt(file, op.defaultBlockSize) && |r.slots| == |op.proposals|
    && forall k: nat :: k < |r.slots| ==> SlotOf(r.slots[k], op, file, k)
  }

  /** The answer that describes it. */
  ghost predicate Describes(answer: Value, op: Op, r: Reservation, file: FileRecord)
    requires op.BeginWriteOp?
  {
    && answer.Writing? && answer.writeId == op.writeId && answer.version == file.version
    && answer.blockSize == r.blockSize && |answer.slots| == |r.slots|
    && forall k: nat :: k < |r.slots| ==> Told(answer.slots[k], r.slots[k], file.blocks)
  }

  /** The tables get the reservation, and the client its description. */
  ghost predicate Reserves(s: State, op: Op, p: Path, file: FileRecord) {
    op.BeginWriteOp?
    && exists r, answer ::
         && Step(s, op) == (s.(locks := OnlyLive(s, p, op.now),
                               writes := OnlyLiveWrites(s, op.now)[op.writeId := r]), Ok(answer))
         && ReservedFor(r, op, p, file) && Describes(answer, op, r, file)
  }

  lemma {:induction false} BeginWriteExactly(s: State, op: Op)
    requires op.BeginWriteOp?
    ensures var error := WriterError(s, op.path, op.caller);
            if error.Some? then Refuses(s, op, error.value)
            else
              var p := Parts(op.path).value;
              var file := FileOf(s.root, p);
              if !HoldsAlone(s, p, op.lockId, op.now) then
                Step(s, op) == (s.(locks := OnlyLive(s, p, op.now)), Err(Conflict))
              else
                var later := ReservationError(s, op, file);
                if later.Some? then
                  Step(s, op) == (s.(locks := OnlyLive(s, p, op.now), writes := OnlyLiveWrites(s, op.now)),
                                  Err(later.value))
                else Reserves(s, op, p, file)
  {
    if WriterError(s, op.path, op.caller).Some? {
      UnableToWrite(s, op);
    } else {
      var p := Parts(op.path).value;
      if HoldsAlone(s, p, op.lockId, op.now) && ReservationError(s, op, FileOf(s.root, p)).None? {
        BeginReserves(s, op, p);
      } else {
        BeginRefuses(s, op, p);
      }
    }
  }

  lemma {:induction false} UnableToWrite(s: State, op: Op)
    requires op.BeginWriteOp? || op.CommitWriteOp?
    requires WriterError(s, op.path, op.caller).Some?
    ensures Refuses(s, op, WriterError(s, op.path, op.caller).value)
  {
    if Parts(op.path).Ok? {
      var p := Parts(op.path).value;
      CommittedFileIsCommitted(s.root, p);
      if Committed(s.root, p) {
        AllowsIsPermits(FileOf(s.root, p).attributes, op.caller);
      }
    }
  }

  /** The raw tables behind the ones the command works on. */
  lemma {:induction false} WriterSees(s: State, op: Op, p: Path)
    requires op.BeginWriteOp? || op.CommitWriteOp?
    requires Parts(op.path) == Ok(p) && WriterError(s, op.path, op.caller).None?
    ensures CommittedFile(s.root, p) == Ok(FileOf(s.root, p))
    ensures Allows(FileOf(s.root, p).attributes, op.caller, WRITE)
    ensures CleanLocks(s.locks, p, op.now) == OnlyLive(s, p, op.now)
    ensures CleanWrites(s.writes, op.now) == OnlyLiveWrites(s, op.now)
    ensures HoldsWriteLock(OnlyLive(s, p, op.now), p, op.lockId) <==> HoldsAlone(s, p, op.lockId, op.now)
  {
    CommittedFileIsCommitted(s.root, p);
    AllowsIsPermits(FileOf(s.root, p).attributes, op.caller);
    CleanedIsOnlyLive(s, p, op.now);
    CleanedWrites(s, op.now);
    HoldsWriteLockExactly(s, p, op.lockId, op.now);
  }

  lemma {:induction false} BeginRefuses(s: State, op: Op, p: Path)
    requires op.BeginWriteOp? && Parts(op.path) == Ok(p) && WriterError(s, op.path, op.caller).None?
    requires !HoldsAlone(s, p, op.lockId, op.now) || ReservationError(s, op, FileOf(s.root, p)).Some?
    ensures Step(s, op) == if !HoldsAlone(s, p, op.lockId, op.now) then
                             (s.(locks := OnlyLive(s, p, op.now)), Err(Conflict))
                           else
                             (s.(locks := OnlyLive(s, p, op.now), writes := OnlyLiveWrites(s, op.now)),
                              Err(ReservationError(s, op, FileOf(s.root, p)).value))
  {
    WriterSees(s, op, p);
    PlanExactly(FileOf(s.root, p), op);
  }

  lemma {:induction false} BeginReserves(s: State, op: Op, p: Path)
    requires op.BeginWriteOp? && Parts(op.path) == Ok(p) && WriterError(s, op.path, op.caller).None?
    requires HoldsAlone(s, p, op.lockId, op.now) && ReservationError(s, op, FileOf(s.root, p)).None?
    ensures Reserves(s, op, p, FileOf(s.root, p))
  {
    var file := FileOf(s.root, p);
    WriterSees(s, op, p);
    PlanExactly(file, op);
    var blockSize := BlockSizeOf(file, op.defaultBlockSize);
    var plan := PlanWriteSlots(BlockSizes(file.blocks), blockSize, op.offset, op.length).value;
    BeginAnswers(s, op, p, file, plan);
    var slots := ReservedSlots(plan, op.proposals);
    var r := Reservation(p, file.version, op.lockId, blockSize, slots, op.now + op.lease);
    PlannedReservation(op, p, file, plan);
    assert Describes(Writing(op.writeId, file.version, blockSize, Describe(file.blocks, slots)), op, r, file);
  }

  lemma {:induction false} PlannedReservation(op: Op, p: Path, file: FileRecord, plan: seq<PlanSlot>)
    requires op.BeginWriteOp?
    requires PlanWriteSlots(BlockSizes(file.blocks), BlockSizeOf(file, op.defaultBlockSize), op.offset, op.length)
             == Ok(plan)
    requires ProposalsFit(plan, op.proposals)
    ensures ReservedFor(Reservation(p, file.version, op.lockId, BlockSizeOf(file, op.defaultBlockSize),
                                    ReservedSlots(plan, op.proposals), op.now + op.lease), op, p, file)
  {
    PlanExactly(file, op);
    var slots := ReservedSlots(plan, op.proposals);
    forall k: nat | k < |slots| ensures SlotOf(slots[k], op, file, k) {
      assert slots[k] == WriteSlot(plan[k].index, op.proposals[k].id, op.proposals[k].addresses, plan[k].size);
    }
  }

  lemma {:induction false} BeginAnswers(s: State, op: Op, p: Path, file: FileRecord, plan: seq<PlanSlot>)
    requires op.BeginWriteOp? && Parts(op.path) == Ok(p) && CommittedFile(s.root, p) == Ok(file)
    requires Allows(file.attributes, op.caller, WRITE) && HoldsWriteLock(CleanLocks(s.locks, p, op.now), p, op.lockId)
    requires op.writeId !in CleanWrites(s.writes, op.now) && file.version == op.baseVersion
    requires PlanWriteSlots(BlockSizes(file.blocks), BlockSizeOf(file, op.defaultBlockSize), op.offset, op.length)
             == Ok(plan)
    requires ProposalsFit(plan, op.proposals)
    ensures var blockSize, slots := BlockSizeOf(file, op.defaultBlockSize), ReservedSlots(plan, op.proposals);
            Step(s, op) ==
            (s.(locks := CleanLocks(s.locks, p, op.now),
                writes := CleanWrites(s.writes, op.now)
                  [op.writeId := Reservation(p, file.version, op.lockId, blockSize, slots, op.now + op.lease)]),
             Ok(Writing(op.writeId, file.version, blockSize, Describe(file.blocks, slots))))
  {
  }

  /** The plan, in products and quotients. */
  lemma {:induction false} PlanExactly(file: FileRecord, op: Op)
    requires op.BeginWriteOp?
    ensures BlockSizeOf(file, op.defaultBlockSize) == BlockSizeAt(file, op.defaultBlockSize)
    ensures var blockSize := BlockSizeOf(file, op.defaultBlockSize);
            var plan := PlanWriteSlots(BlockSizes(file.blocks), blockSize, op.offset, op.length);
            && (plan.Ok? <==> Writable(file, op) && blockSize > 0)
            && (plan.Err? ==> plan.error == if Writable(file, op) then Internal else InvalidPath)
            && (plan.Ok? ==>
                  && (ProposalsFit(plan.value, op.proposals) <==> Proposed(op, blockSize))
                  && forall k: nat {:trigger plan.value[k]} :: k < |plan.value| ==>
                       plan.value[k] == PlanSlot(op.offset / blockSize + k,
                                                 Min(blockSize, Max(Sum(BlockSizes(file.blocks)), op.offset + op.length)
                                                                - (op.offset / blockSize + k) * blockSize)))
  {
    var blockSize := BlockSizeOf(file, op.defaultBlockSize);
    var plan := PlanWriteSlots(BlockSizes(file.blocks), blockSize, op.offset, op.length);
    if plan.Ok? {
      var first, last := op.offset / blockSize, (op.offset + op.length - 1) / blockSize;
      OrderOfQuotients(op.offset, op.offset + op.length - 1, blockSize);
      forall k: nat {:trigger plan.value[k]} | k < |plan.value|
        ensures Start(first + k, blockSize) == (first + k) * blockSize
      {
        StartIsProduct(first + k, blockSize);
      }
    }
  }

  lemma {:induction false} OrderOfQuotients(a: nat, b: nat, n: nat)
    requires a <= b && n > 0
    ensures a / n <= b / n
  {
    BlockOfPosition(a, n);
    BlockOfPosition(b, n);
    if b / n < a / n {
      StartMono(b / n + 1, a / n, n);
    }
  }

  // ----- Publishing -----

  /** The client confirms the blocks reserved, in order. */
  ghost predicate Matches(confirmed: seq<Confirmed>, slots: seq<WriteSlot>) {
    && |confirmed| == |slots|
    && forall k :: 0 <= k < |slots| ==>
         confirmed[k].index == slots[k].index && confirmed[k].id == slots[k].blockId
         && confirmed[k].size == slots[k].size
  }

  ghost predicate FindsReservation(s: State, op: Op, p: Path)
    requires op.CommitWriteOp?
  {
    var live := OnlyLiveWrites(s, op.now);
    op.writeId in live && live[op.writeId].path == p && live[op.writeId].lockId == op.lockId
  }

  /** Lock, versions and blocks are still those of the reservation. */
  ghost predicate Publishable(s: State, op: Op, p: Path)
    requires op.CommitWriteOp? && Committed(s.root, p) && op.writeId in s.writes
  {
    var r := s.writes[op.writeId];
    && HoldsAlone(s, p, op.lockId, op.now) && op.baseVersion == r.baseVersion
    && FileOf(s.root, p).version == r.baseVersion && Matches(op.confirmed, r.slots)
  }

  /** The block that slot `k` publishes: new id and nodes, checksum and size as confirmed. */
  ghost predicate PublishedAs(block: BlockRecord, slot: WriteSlot, confirmed: Confirmed) {
    && block.id == slot.blockId && block.addresses == slot.addresses
    && block.checksum == confirmed.checksum && block.size == confirmed.size && block.confirmed
  }

  /** Where slot `k` of a reservation of consecutive blocks lands: in its place, or at the end. */
  function Lands(blocks: seq<BlockRecord>, slots: seq<WriteSlot>, k: nat): int
    requires k < |slots|
  {
    Min(slots[0].index, |blocks|) + k
  }

  /** The blocks after a commit: those published where they land, the others as they were. */
  ghost predicate PublishesBlocks(before: seq<BlockRecord>, after: seq<BlockRecord>, slots: seq<WriteSlot>,
        confirmed: seq<Confirmed>)
    requires slots != [] && |slots| == |confirmed|
  {
    var first := Lands(before, slots, 0);
    && |after| == Max(|before|, first + |slots|)
    && (forall k: nat :: k < |slots| ==> PublishedAs(after[first + k], slots[k], confirmed[k]))
    && forall i: nat :: i < |before| && !(first <= i < first + |slots|) ==> after[i] == before[i]
  }

  /** Why a commit fails before its blocks are looked at: each check, with the tables it leaves. */
  lemma {:induction false} CommitRefusals(s: State, op: Op)
    requires op.CommitWriteOp?
    ensures var error := WriterError(s, op.path, op.caller);
            if error.Some? then Refuses(s, op, error.value)
            else
              var p, live := Parts(op.path).value, s.(writes := OnlyLiveWrites(s, op.now));
              if !FindsReservation(s, op, p) then Step(s, op) == (live, Err(Conflict))
              else if !Publishable(s, op, p) then
                Step(s, op) == (live.(locks := OnlyLive(s, p, op.now)), Err(Conflict))
              else Step(s, op).1.Ok?
  {
    if WriterError(s, op.path, op.caller).Some? {
      UnableToWrite(s, op);
    } else {
      WriterSees(s, op, Parts(op.path).value);
    }
  }

  /** The file becomes `after`, and the blocks `replaced` are handed back. */
  ghost predicate Commits(s: State, op: Op, p: Path, after: FileRecord, replaced: seq<BlockRecord>)
    requires op.CommitWriteOp? && Committed(s.root, p) && op.writeId in s.writes
    requires s.writes[op.writeId].slots != [] && |s.writes[op.writeId].slots| == |op.confirmed|
  {
    var r, before, s' := s.writes[op.writeId], FileOf(s.root, p), Step(s, op).0;
    && Step(s, op).1 == Ok(Published(before.version + 1, replaced))
    && s' == s.(root := s'.root, locks := OnlyLive(s, p, op.now),
                writes := OnlyLiveWrites(s, op.now) - {op.writeId})
    && OnlyEntry(s.root, s'.root, p, Some(File(after)))
    && after == before.(blocks := after.blocks, version := before.version + 1, blockSize := r.blockSize)
    && PublishesBlocks(before.blocks, after.blocks, r.slots, op.confirmed)
    && HandsBack(before.blocks, replaced, r.slots)
  }

  /** A commit publishes its blocks exactly when it finds its reservation, its lock and the
      version it was begun on; nothing but the file and the tables' expired entries changes. */
  lemma {:induction false} CommitExactly(s: State, op: Op)
    requires op.CommitWriteOp? && WriterError(s, op.path, op.caller).None?
    requires FindsReservation(s, op, Parts(op.path).value) && Publishable(s, op, Parts(op.path).value)
    requires Consecutive(s.writes[op.writeId].slots)
    ensures exists after, replaced :: Commits(s, op, Parts(op.path).value, after, replaced)
  {
    var p, r := Parts(op.path).value, s.writes[op.writeId];
    var before := FileOf(s.root, p);
    WriterSees(s, op, p);
    var published := Publish(before.blocks, r.slots, op.confirmed);
    var after := before.(blocks := published.0, version := before.version + 1, blockSize := r.blockSize);
    CommitAnswers(s, op, p);
    PutFileExactly(s.root, p, after);
    PublishExactly(before.blocks, r.slots, op.confirmed);
    assert Commits(s, op, p, after, published.1);
  }

  lemma {:induction false} CommitAnswers(s: State, op: Op, p: Path)
    requires op.CommitWriteOp? && Parts(op.path) == Ok(p) && WriterError(s, op.path, op.caller).None?
    requires FindsReservation(s, op, p) && Publishable(s, op, p)
    ensures var file, r := FileOf(s.root, p), s.writes[op.writeId];
            var published := Publish(file.blocks, r.slots, op.confirmed);
            Step(s, op) ==
            (s.(root := PutFile(s.root, p, file.(blocks := published.0, version := file.version + 1,
                                                 blockSize := r.blockSize)),
                locks := OnlyLive(s, p, op.now), writes := OnlyLiveWrites(s, op.now) - {op.writeId}),
             Ok(Published(file.version + 1, published.1)))
  {
    WriterSees(s, op, p);
  }

  /** The blocks that were there, in order. */
  ghost predicate HandsBack(before: seq<BlockRecord>, replaced: seq<BlockRecord>, slots: seq<WriteSlot>)
    requires slots != []
  {
    var first := Lands(before, slots, 0);
    replaced == before[first..Min(first + |slots|, |before|)]
  }

  lemma {:induction false} PublishExactly(before: seq<BlockRecord>, slots: seq<WriteSlot>, confirmed: seq<Confirmed>)
    requires Consecutive(slots) && |slots| == |confirmed|
    ensures PublishesBlocks(before, Publish(before, slots, confirmed).0, slots, confirmed)
    ensures HandsBack(before, Publish(before, slots, confirmed).1, slots)
  {
    PublishIsOverlay(before, slots, confirmed);
    var first := Lands(before, slots, 0);
    assert first == PublishStart(before, slots);
    var news, after := NewBlocksOf(slots, confirmed), Publish(before, slots, confirmed).0;
    forall k: nat | k < |slots| ensures PublishedAs(after[first + k], slots[k], confirmed[k]) {
      assert after[first + k] == news[k];
    }
  }

  /** In every state the machine reaches the published blocks land exactly at the indices that
      were reserved. */
  lemma {:induction false} CommitPublishesInPlace(s: State, used: set<string>, op: Op, k: nat)
    requires LaidOut(s, used) && op.CommitWriteOp? && Succeeds(s, op)
    ensures Parts(op.path).Ok? && op.writeId in s.writes && |s.writes[op.writeId].slots| == |op.confirmed|
    ensures Committed(Step(s, op).0.root, Parts(op.path).value)
    ensures k < |op.confirmed| ==>
              var slot, blocks := s.writes[op.writeId].slots[k], FileOf(Step(s, op).0.root,
                  Parts(op.path).value).blocks;
              slot.index < |blocks| && PublishedAs(blocks[slot.index], slot, op.confirmed[k])
  {
    CommitRefusals(s, op);
    var p, r := Parts(op.path).value, s.writes[op.writeId];
    CommitExactly(s, op);
    LandsInPlace(s, used, op);
    var after, replaced :| Commits(s, op, p, after, replaced);
    FileAtEntry(Step(s, op).0.root, p, after);
    if k < |op.confirmed| {
      BlockInPlace(FileOf(s.root, p).blocks, after.blocks, r.slots, op.confirmed, k);
    }
  }

  lemma {:induction false} FileAtEntry(root: Node, p: Path, file: FileRecord)
    ensures EntryAt(root, p) == Some(File(file)) ==> IsFile(root, p) && FileOf(root, p) == file
  {
  }

  lemma {:induction false} BlockInPlace(before: seq<BlockRecord>, after: seq<BlockRecord>, slots: seq<WriteSlot>,
        confirmed: seq<Confirmed>, k: nat)
    requires Consecutive(slots) && |slots| == |confirmed| && slots[0].index <= |before| && k < |slots|
    requires PublishesBlocks(before, after, slots, confirmed)
    ensures slots[k].index < |after| && PublishedAs(after[slots[k].index], slots[k], confirmed[k])
  {
    assert Lands(before, slots, 0) + k == slots[k].index;
  }

  lemma {:induction false} LandsInPlace(s: State, used: set<string>, op: Op)
    requires LaidOut(s, used) && op.CommitWriteOp? && Succeeds(s, op)
    ensures op.writeId in s.writes && Committed(s.root, Parts(op.path).value)
    ensures Consecutive(s.writes[op.writeId].slots)
    ensures var slots := s.writes[op.writeId].slots;
            slots[0].index <= |FileOf(s.root, Parts(op.path).value).blocks|
  {
    var p := Parts(op.path).value;
    CommittedFileIsCommitted(s.root, p);
    var offset, length := CommittedPlan(s, op);
    var file := FileOf(s.root, p);
    var sizes := BlockSizes(file.blocks);
    var first := PlanHasSomeShape(sizes, file.blockSize, offset, length);
    PlanStartsInside(sizes, file.blockSize, offset, first);
  }

  // ----- Giving up -----

  /** An abort hands back the blocks of a reservation in force; one that is gone, by expiry or
      by a commit, is no error and hands back nothing. */
  lemma {:induction false} AbortWriteExactly(s: State, op: Op)
    requires op.AbortWriteOp?
    ensures if Parts(op.path).Err? then Refuses(s, op, InvalidPath)
            else
              var live := OnlyLiveWrites(s, op.now);
              if op.writeId !in live || live[op.writeId].path != Parts(op.path).value then
                Step(s, op) == (s.(writes := live), Ok(Aborted([])))
              else if live[op.writeId].lockId != op.lockId then Step(s, op) == (s.(writes := live), Err(Conflict))
              else && Step(s, op).0 == s.(writes := live - {op.writeId})
                   && Step(s, op).1.Ok? && Step(s, op).1.value.Aborted?
                   && GivesBack(Step(s, op).1.value.reserved, live[op.writeId].slots)
  {
    CleanedWrites(s, op.now);
  }

  ghost predicate GivesBack(reserved: seq<BlockRecord>, slots: seq<WriteSlot>) {
    && |reserved| == |slots|
    && forall k :: 0 <= k < |slots| ==>
         reserved[k] == BlockRecord(slots[k].blockId, slots[k].addresses, "", slots[k].size, false)
  }

  // ----- Repairs -----

  ghost function UpdateError(s: State, op: Op): Option<Error>
    requires op.UpdateReplicasOp?
  {
    if Parts(op.path).Err? then Some(InvalidPath)
    else if !Committed(s.root, Parts(op.path).value) then Some(PathNotFound)
    else
      var blocks := FileOf(s.root, Parts(op.path).value).blocks;
      if !exists i :: 0 <= i < |blocks| && blocks[i].id == op.blockId then Some(PathNotFound)
      else if (exists i: nat :: FirstWith(blocks, op.blockId, i) && blocks[i].addresses != op.expected)
      then Some(Conflict)
      else None
  }

  /** The nodes of one block are replaced, exactly when they are those expected. */
  lemma {:induction false} UpdateReplicasExactly(s: State, op: Op)
    requires op.UpdateReplicasOp?
    ensures var error := UpdateError(s, op);
            if error.Some? then Refuses(s, op, error.value)
            else
              var p := Parts(op.path).value;
              exists file :: Rewrites(s, op, p, file) && Relocates(FileOf(s.root, p), file, op)
  {
    if Parts(op.path).Ok? {
      var p := Parts(op.path).value;
      CommittedFileIsCommitted(s.root, p);
      if Committed(s.root, p) {
        var file := FileOf(s.root, p);
        IndexIsFirst(file.blocks, op.blockId);
        var i := IndexOfBlock(file.blocks, op.blockId);
        if UpdateError(s, op).None? {
          var file' := file.(blocks := file.blocks[i := file.blocks[i].(addresses := op.replacement)]);
          PutFileExactly(s.root, p, file');
          assert Rewrites(s, op, p, file') && Relocates(file, file', op);
        }
      }
    }
  }

  /** The block keeps everything but its nodes, the file everything but the block. */
  ghost predicate Relocates(before: FileRecord, after: FileRecord, op: Op)
    requires op.UpdateReplicasOp?
  {
    && after == before.(blocks := after.blocks)
    && forall i: nat :: FirstWith(before.blocks, op.blockId, i) ==>
         OneBlock(before.blocks, after.blocks, op.blockId,
                  BlockRecord(op.blockId, op.replacement, before.blocks[i].checksum, before.blocks[i].size,
                              before.blocks[i].confirmed))
  }
}
