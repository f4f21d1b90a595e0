/** The write protocol end to end: clients that reserve, write new blocks and commit,
    interleaved with every other command and with deletions on the DataNodes. Whatever the
    interleaving, the bytes of a file are those of its committed writes applied in commit
    order; writes that fail, abort or expire leave no trace. */
module WriteProtocol {
  import opened Common
  import opened Chunking
  import opened Paths
  import opened Tree
  import opened WritePlan
  import opened Mutations
  import opened Effects
  import opened History
  import opened Locking
  import opened Conservation
  import opened Transactions
  import opened FileContent

  // ----- The system: metadata, DataNodes and clients -----

  /** A client's write in progress: what BeginWrite answered and how far it got. */
  datatype Intent = Intent(
    path: Path, offset: int, data: seq<Byte>, blockSize: nat, slots: seq<SlotView>,
    written: nat, abandoned: bool, published: bool)

  /** No commit applied from now on is stamped before `horizon`: it is the collector's clock
      less the time a command may take from its stamp to its application. */
  datatype World = World(
    s: State, used: set<string>, store: Store, intents: map<string, Intent>, horizon: real)

  datatype Event =
    | Command(op: Op)
    | Begin(op: Op, data: seq<Byte>)
    | WriteNext(writeId: string, prior: seq<Byte>)
    | GiveUp(writeId: string, junk: seq<Byte>)
    | Commit(op: Op)
    | PutBlock(id: string, bytes: seq<Byte>)
    | Discard(id: string)
    | Tick(horizon: real)

  /** The next block the client writes. */
  function NextSlot(w: World, writeId: string): SlotView
    requires writeId in w.intents && w.intents[writeId].written < |w.intents[writeId].slots|
  {
    w.intents[writeId].slots[w.intents[writeId].written]
  }

  /** What the participants do. A client commits after writing all its slots, each once and
      in order. Others write only blocks of uploads. A block is deleted when the metadata
      no longer names it, or names it in a reservation that no commit to come can find
      unexpired. Ids are fresh and not empty. */
  ghost predicate Allowed(w: World, e: Event) {
    match e
    case Command(op) => FreshOp(w.used, op) && "" !in NewIds(op) && !op.BeginWriteOp? && !op.CommitWriteOp?
    case Begin(op, data) => op.BeginWriteOp? && FreshOp(w.used, op) && "" !in NewIds(op) && op.length == |data|
    case WriteNext(id, _) => CanAdvance(w, id)
    case GiveUp(id, _) => id in w.intents && w.intents[id].written < |w.intents[id].slots|
    case Commit(op) =>
      && op.CommitWriteOp? && op.now >= w.horizon
      && (op.writeId in w.intents ==> w.intents[op.writeId].written == |w.intents[op.writeId].slots|)
    case PutBlock(id, _) => forall a :: IdAt(w.s, a) == Some(id) ==> a.InFile? && CommittedFile(w.s.root, a.path).Err?
    case Discard(id) => forall a :: IdAt(w.s, a) == Some(id) ==>
        a.InWrite? && w.s.writes[a.writeId].expires <= w.horizon
    case Tick(horizon) => horizon >= w.horizon
  }

  predicate CanAdvance(w: World, id: string) {
    && id in w.intents && !w.intents[id].abandoned && w.intents[id].written < |w.intents[id].slots|
    && w.intents[id].offset >= 0
    && Overlaps(NextSlot(w, id), w.intents[id].blockSize, w.intents[id].offset, |w.intents[id].data|)
  }

  /** The lock of the reservation is still in the table: without it, it can never commit. */
  ghost predicate Viable(s: State, p: Path, id: string) {
    id in s.writes && s.writes[id].path == p && s.writes[id].lockId in HoldersAt(s, p)
  }

  /** The reservation could still commit on the file as it is. */
  ghost predicate Live(w: World, p: Path, id: string) {
    && Viable(w.s, p, id) && w.s.writes[id].expires > w.horizon
    && CommittedFile(w.s.root, p).Ok? && w.s.writes[id].baseVersion == CommittedFile(w.s.root, p).value.version
  }

  /** `_slot_content` for a write on `p` that may yet commit: the whole block is overwritten,
      or the old block is fetched as it is stored. */
  ghost predicate FetchesRight(w: World, p: Path, id: string, prior: seq<Byte>)
    requires CanAdvance(w, id)
  {
    var it, slot := w.intents[id], NextSlot(w, id);
    Live(w, p, id) ==>
      Covered(slot, it.blockSize, it.offset, |it.data|)
      || (Readable(slot, w.store) && prior == Prior(slot, w.store))
  }

  /** What the client sends for it. */
  function BytesOfNext(w: World, id: string, prior: seq<Byte>): seq<Byte>
    requires CanAdvance(w, id)
  {
    var it := w.intents[id];
    SlotBytes(NextSlot(w, id), it.blockSize, it.offset, it.data, prior)
  }

  function Advanced(w: World, id: string, bytes: seq<Byte>): World
    requires CanAdvance(w, id)
  {
    w.(store := w.store[NextSlot(w, id).newId := bytes],
       intents := w.intents[id := w.intents[id].(written := w.intents[id].written + 1)])
  }

  function AfterCommand(w: World, op: Op): World {
    w.(s := Step(w.s, op).0, used := Learn(w.used, op))
  }

  function NewIntent(op: Op, data: seq<Byte>, value: Value): Intent
    requires op.BeginWriteOp? && value.Writing?
  {
    Intent(if Target(op).Ok? then Target(op).value else [], op.offset, data, value.blockSize, value.slots, 0, false,
           false)
  }

  ghost function Next(w: World, e: Event): World
    requires Allowed(w, e)
  {
    match e
    case Command(op) => AfterCommand(w, op)
    case Begin(op, data) =>
      var r := Step(w.s, op).1;
      var w' := AfterCommand(w, op);
      if r.Ok? && r.value.Writing? then w'.(intents := w.intents[op.writeId := NewIntent(op, data, r.value)]) else w'
    case WriteNext(id, prior) => Advanced(w, id, BytesOfNext(w, id, prior))
    case GiveUp(id, junk) =>
      w.(store := w.store[NextSlot(w, id).newId := junk], intents := w.intents[id := w.intents[id].(abandoned := true)])
    case Commit(op) =>
      var w' := AfterCommand(w, op);
      if Succeeds(w.s, op) && op.writeId in w.intents
      then w'.(intents := w.intents[op.writeId := w.intents[op.writeId].(published := true)]) else w'
    case PutBlock(id, bytes) => w.(store := w.store[id := bytes])
    case Discard(id) => w.(store := w.store - {id})
    case Tick(horizon) => w.(horizon := horizon)
  }

  // ----- The content of a file -----

  function Pieces(blocks: seq<BlockRecord>, store: Store): (r: seq<seq<Byte>>)
    ensures |r| == |blocks|
    ensures forall i {:trigger r[i]} :: 0 <= i < |r| ==>
      r[i] == if blocks[i].id in store then store[blocks[i].id] else []
  {
    if blocks == [] then []
    else [if blocks[0].id in store then store[blocks[0].id] else []] + Pieces(blocks[1..], store)
  }

  /** The blocks are all there, with their recorded sizes, and cut `content` in blocks. */
  ghost predicate Holds(blocks: seq<BlockRecord>, store: Store, content: seq<Byte>, blockSize: nat) {
    && (forall i :: 0 <= i < |blocks| ==> blocks[i].id in store && |store[blocks[i].id]| == blocks[i].size)
    && IsChunking(Pieces(blocks, store), content, blockSize)
  }

  ghost predicate Stored(w: World, p: Path, content: seq<Byte>) {
    && CommittedFile(w.s.root, p).Ok?
    && var file := CommittedFile(w.s.root, p).value;
       file.blockSize > 0 && Holds(file.blocks, w.store, content, file.blockSize)
  }

  lemma {:induction false} SizesOfPieces(blocks: seq<BlockRecord>, store: Store, content: seq<Byte>, blockSize: nat)
    requires Holds(blocks, store, content, blockSize)
    ensures BlockSizes(blocks) == Lengths(Pieces(blocks, store))
    ensures Layout(BlockSizes(blocks), blockSize) && Sum(BlockSizes(blocks)) == |content|
    ensures Flatten(Pieces(blocks, store)) == content
  {
    LayoutOfChunking(Pieces(blocks, store), content, blockSize);
    FlattenChunking(Pieces(blocks, store), content, blockSize, |blocks|);
  }

  /** Only the ids of the blocks, their sizes and what is stored under them matter. */
  lemma {:induction false} SameBytes(blocks: seq<BlockRecord>, blocks': seq<BlockRecord>, store: Store, store': Store,
                   content: seq<Byte>, blockSize: nat)
    requires Holds(blocks, store, content, blockSize) && |blocks'| == |blocks|
    requires forall i :: 0 <= i < |blocks| ==>
      blocks'[i].id == blocks[i].id && blocks'[i].size == blocks[i].size
      && blocks[i].id in store' && store'[blocks[i].id] == store[blocks[i].id]
    ensures Holds(blocks', store', content, blockSize)
  {
    assert Pieces(blocks', store') == Pieces(blocks, store);
  }

  // ----- What every event keeps -----

  /** The slot's new block is where its reservation has it, or nowhere. */
  ghost predicate Owned(w: World, writeId: string, k: nat, id: string) {
    id in w.used && forall a :: IdAt(w.s, a) == Some(id) ==> a == InWrite(writeId, k)
  }

  ghost predicate IntentOk(w: World, id: string)
    requires id in w.intents
  {
    var it := w.intents[id];
    && id in w.used && it.offset >= 0 && it.written <= |it.slots| && (it.published ==> it.written == |it.slots|)
    && (forall k :: 0 <= k < |it.slots| ==> Overlaps(it.slots[k], it.blockSize, it.offset, |it.data|))
    && (!it.published ==> forall k :: 0 <= k < |it.slots| ==> Owned(w, id, k, it.slots[k].newId))
    && forall j, k :: 0 <= j < k < |it.slots| ==> it.slots[j].newId != it.slots[k].newId
  }

  /** The reservation and the client's view of it are about the same blocks. */
  ghost predicate SlotsAgree(it: Intent, r: Reservation) {
    && |it.slots| == |r.slots|
    && forall k :: 0 <= k < |r.slots| ==>
         && it.slots[k].newId == r.slots[k].blockId && it.slots[k].newAddresses == r.slots[k].addresses
         && it.slots[k].index == r.slots[k].index && it.slots[k].newSize == r.slots[k].size
  }

  /** The write was planned on this very content. */
  ghost predicate Planned(file: FileRecord, content: seq<Byte>, it: Intent, plan: seq<PlanSlot>, first: nat) {
    && it.blockSize == file.blockSize > 0 && 0 <= it.offset <= |content| && it.data != []
    && PlanShape(plan, |content|, file.blockSize, it.offset, |it.data|, first)
    && |plan| == |it.slots|
    && forall k :: 0 <= k < |plan| ==>
         it.slots[k].index == plan[k].index && it.slots[k].newSize == plan[k].size && OldBlock(file.blocks, it.slots[k])
  }

  ghost predicate OldBlock(blocks: seq<BlockRecord>, slot: SlotView) {
    if slot.index < |blocks| then slot.oldId == blocks[slot.index].id && slot.oldId != "" else slot.oldId == ""
  }

  /** The first `written` new blocks are blocks of the content after the write. */
  ghost predicate WrittenSoFar(it: Intent, store: Store, content: seq<Byte>)
    requires 0 <= it.offset <= |content|
  {
    forall k :: 0 <= k < it.written && k < |it.slots| ==> SlotStored(it.slots[k], it, store, content)
  }

  ghost predicate SlotStored(slot: SlotView, it: Intent, store: Store, content: seq<Byte>)
    requires 0 <= it.offset <= |content|
  {
    slot.newId in store && IsChunk(store[slot.newId], Splice(content, it.offset, it.data), it.blockSize, slot.index)
  }

  /** A reservation that could still commit is backed by blocks already correct. */
  ghost predicate Backed(w: World, p: Path, content: seq<Byte>, id: string)
    requires id in w.s.writes && CommittedFile(w.s.root, p).Ok?
  {
    var file, r := CommittedFile(w.s.root, p).value, w.s.writes[id];
    && id in w.intents && !w.intents[id].published && SlotsAgree(w.intents[id], r) && r.baseVersion <= file.version
    && (r.baseVersion == file.version ==>
          && r.blockSize == file.blockSize
          && (exists plan, first :: Planned(file, content, w.intents[id], plan, first))
          && (r.expires > w.horizon ==> WrittenSoFar(w.intents[id], w.store, content)))
  }

  /** What holds whether or not there is a file to follow. */
  ghost predicate WorldOk(w: World) {
    Sound(w.s, w.used) && "" !in w.used && forall id :: id in w.intents ==> IntentOk(w, id)
  }

  ghost predicate Inv(w: World, p: Path, content: seq<Byte>) {
    && WorldOk(w) && Stored(w, p, content)
    && forall id :: Viable(w.s, p, id) ==> Backed(w, p, content, id)
  }

  // ----- One command -----

  /** A file that is not removed keeps its data through every command but its own commits. */
  lemma {:induction false} DataStep(s: State, op: Op, p: Path)
    requires CommittedFile(s.root, p).Ok? && !Removes(s, op, p)
    ensures CommittedFile(Step(s, op).0.root, p).Ok?
    ensures !(op.CommitWriteOp? && Succeeds(s, op) && Target(op) == Ok(p)) ==>
              SameData(CommittedFile(s.root, p).value, CommittedFile(Step(s, op).0.root, p).value)
  {
    StepFiles(s, op, p);
    if Succeeds(s, op) && Target(op) == Ok(p) {
      if op.ConfirmBlockOp? || op.CompleteUploadOp? || op.BeginUploadOp? || op.AbortUploadOp? {
        UploadCommandsSpareCommitted(s, op);
      }
    }
  }

  lemma {:induction false} OwnedStep(w: World, op: Op, writeId: string, k: nat, id: string)
    requires Sound(w.s, w.used) && FreshOp(w.used, op) && Owned(w, writeId, k, id)
    requires !(op.CommitWriteOp? && Succeeds(w.s, op) && op.writeId == writeId)
    ensures Owned(AfterCommand(w, op), writeId, k, id)
  {
    var s' := Step(w.s, op).0;
    forall a | IdAt(s', a) == Some(id) ensures a == InWrite(writeId, k) {
      IdsHaveOrigins(w.s, op, a);
      if OriginOf(w.s, op, a).Old? {
        WriteIdsMoveOnlyByCommit(w.s, op, a, writeId, k);
      }
    }
  }

  lemma {:induction false} WriteIdsMoveOnlyByCommit(s: State, op: Op, a: Loc, writeId: string, k: nat)
    requires ReservationsOk(s) && OriginOf(s, op, a) == Old(InWrite(writeId, k))
    ensures a == InWrite(writeId, k) || (op.CommitWriteOp? && Succeeds(s, op) && op.writeId == writeId)
  {
  }

  lemma {:induction false} StoredStep(w: World, op: Op, p: Path, content: seq<Byte>)
    requires Stored(w, p, content) && !Removes(w.s, op, p)
    requires !(op.CommitWriteOp? && Succeeds(w.s, op) && Target(op) == Ok(p))
    ensures Stored(AfterCommand(w, op), p, content)
  {
    DataStep(w.s, op, p);
    var f, f' := CommittedFile(w.s.root, p).value, CommittedFile(Step(w.s, op).0.root, p).value;
    SameBytes(f.blocks, f'.blocks, w.store, w.store, content, f.blockSize);
  }

  lemma {:induction false} PlannedOnSameData(f: FileRecord, f': FileRecord, content: seq<Byte>, it: Intent)
    requires SameData(f, f') && exists plan, first :: Planned(f, content, it, plan, first)
    ensures exists plan, first :: Planned(f', content, it, plan, first)
  {
    var plan, first :| Planned(f, content, it, plan, first);
    assert Planned(f', content, it, plan, first);
  }

  /** A reservation that was there before the command is as well backed after it. */
  lemma {:induction false} BackedStep(w: World, op: Op, p: Path, content: seq<Byte>, id: string)
    requires CommittedFile(w.s.root, p).Ok? && !Removes(w.s, op, p)
    requires !(op.CommitWriteOp? && Succeeds(w.s, op) && Target(op) == Ok(p))
    requires id in w.s.writes && Backed(w, p, content, id)
    requires id in Step(w.s, op).0.writes && Step(w.s, op).0.writes[id] == w.s.writes[id]
    ensures CommittedFile(Step(w.s, op).0.root, p).Ok? && Backed(AfterCommand(w, op), p, content, id)
  {
    DataStep(w.s, op, p);
    var f, f' := CommittedFile(w.s.root, p).value, CommittedFile(Step(w.s, op).0.root, p).value;
    if w.s.writes[id].baseVersion == f.version {
      PlannedOnSameData(f, f', content, w.intents[id]);
    }
  }

  lemma {:induction false} IntentStep(w: World, op: Op, id: string)
    requires Sound(w.s, w.used) && FreshOp(w.used, op) && id in w.intents && IntentOk(w, id)
    requires !(op.CommitWriteOp? && Succeeds(w.s, op) && op.writeId == id)
    ensures IntentOk(AfterCommand(w, op), id)
  {
    var it := w.intents[id];
    if !it.published {
      forall k | 0 <= k < |it.slots| ensures Owned(AfterCommand(w, op), id, k, it.slots[k].newId) {
        OwnedStep(w, op, id, k, it.slots[k].newId);
      }
    }
  }

  lemma {:induction false} IntentOnlyNeeds(w: World, w': World, id: string)
    requires id in w.intents && IntentOk(w, id)
    requires w'.s == w.s && w'.used == w.used && id in w'.intents && w'.intents[id] == w.intents[id]
    ensures IntentOk(w', id)
  {
  }

  lemma {:induction false} NamelessStaysNew(used: set<string>, op: Op)
    requires "" !in used && "" !in NewIds(op)
    ensures "" !in Learn(used, op)
  {
  }

  /** A lock that left the table does not come back. */
  lemma {:induction false} ViableBefore(s: State, used: set<string>, op: Op, p: Path, id: string)
    requires Known(s, used) && FreshOp(used, op) && Viable(Step(s, op).0, p, id)
    ensures (Viable(s, p, id) && Step(s, op).0.writes[id] == s.writes[id])
            || (op.BeginWriteOp? && Succeeds(s, op) && op.writeId == id)
  {
    StepWrites(s, op, id);
    StepLocks(s, op, p);
    if id in s.writes {
      FreshOpIntroducesNothingUsed(used, op, s.writes[id].lockId);
    }
  }

  /** A command that neither opens nor publishes a write. */
  lemma {:induction false} CommandKeepsInv(w: World, op: Op, p: Path, content: seq<Byte>)
    requires Inv(w, p, content) && FreshOp(w.used, op) && "" !in NewIds(op) && !Removes(w.s, op, p)
    requires (op.CommitWriteOp? || op.BeginWriteOp?) ==> !Succeeds(w.s, op)
    ensures Inv(AfterCommand(w, op), p, content)
  {
    var w' := AfterCommand(w, op);
    CommandKeepsWorld(w, op);
    StoredStep(w, op, p, content);
    forall id | Viable(w'.s, p, id) ensures Backed(w', p, content, id) {
      ViableBefore(w.s, w.used, op, p, id);
      BackedStep(w, op, p, content, id);
    }
  }

  // ----- Opening a write -----

  /** What a successful BeginWrite reserves on a file, and tells the client. */
  ghost predicate Opened(file: FileRecord, op: Op, data: seq<Byte>, r: Reservation, it: Intent)
    requires op.BeginWriteOp?
  {
    var plan := PlanWriteSlots(BlockSizes(file.blocks), r.blockSize, op.offset, op.length);
    && op.length == |data| && Target(op) == Ok(r.path) && r.baseVersion == file.version
    && r.blockSize == BlockSizeOf(file, op.defaultBlockSize)
    && plan.Ok? && |plan.value| == |op.proposals| && r.slots == ReservedSlots(plan.value, op.proposals)
    && it == Intent(r.path, op.offset, data, r.blockSize, Describe(file.blocks, r.slots), 0, false, false)
  }

  lemma {:induction false} BegunWrite(s: State, op: Op, data: seq<Byte>)
    requires op.BeginWriteOp? && Succeeds(s, op) && op.length == |data|
    ensures Target(op).Ok? && CommittedFile(s.root, Target(op).value).Ok? && op.writeId in Step(s, op).0.writes
    ensures Step(s, op).1.value.Writing?
    ensures Opened(CommittedFile(s.root, Target(op).value).value, op, data, Step(s, op).0.writes[op.writeId],
                   NewIntent(op, data, Step(s, op).1.value))
  {
  }

  /** The plan behind an intent, free of how it was computed. */
  ghost predicate Follows(it: Intent, r: Reservation, plan: seq<PlanSlot>, size: nat, first: nat) {
    && it.offset >= 0 && it.data != []
    && PlanShape(plan, size, it.blockSize, it.offset, |it.data|, first)
    && SlotsAgree(it, r) && |plan| == |it.slots|
    && forall k :: 0 <= k < |plan| ==> it.slots[k].index == plan[k].index && it.slots[k].newSize == plan[k].size
  }

  lemma {:induction false} OpenedPlan(file: FileRecord, op: Op, data: seq<Byte>, r: Reservation, it: Intent)
    returns (plan: seq<PlanSlot>, first: nat)
    requires op.BeginWriteOp? && Opened(file, op, data, r, it)
    ensures 0 <= op.offset <= Sum(BlockSizes(file.blocks)) && it.blockSize == r.blockSize > 0
    ensures Follows(it, r, plan, Sum(BlockSizes(file.blocks)), first)
    ensures forall k :: 0 <= k < |it.slots| ==> it.slots[k] == DescribeSlot(file.blocks, r.slots[k])
  {
    plan := PlanWriteSlots(BlockSizes(file.blocks), r.blockSize, op.offset, op.length).value;
    first := PlanHasSomeShape(BlockSizes(file.blocks), r.blockSize, op.offset, op.length);
  }

  lemma {:induction false} ReservedIdsAreOwned(w: World, id: string, k: nat)
    requires id in w.s.writes && k < |w.s.writes[id].slots| && Unique(w.s) && Known(w.s, w.used)
    ensures Owned(w, id, k, w.s.writes[id].slots[k].blockId)
  {
    assert IdAt(w.s, InWrite(id, k)) == Some(w.s.writes[id].slots[k].blockId);
  }

  lemma {:induction false} OwnedIdsDiffer(w: World, id: string, j: nat, k: nat)
    requires id in w.s.writes && j < k < |w.s.writes[id].slots| && Unique(w.s)
    ensures w.s.writes[id].slots[j].blockId != w.s.writes[id].slots[k].blockId
  {
    assert IdAt(w.s, InWrite(id, j)) == Some(w.s.writes[id].slots[j].blockId);
    assert IdAt(w.s, InWrite(id, k)) == Some(w.s.writes[id].slots[k].blockId);
  }

  lemma {:induction false} FollowingIntentIsOk(w: World, id: string, plan: seq<PlanSlot>, size: nat, first: nat)
    requires id in w.s.writes && id in w.intents && id in w.used && w.intents[id].written == 0
    requires !w.intents[id].published
    requires Unique(w.s) && Known(w.s, w.used) && Follows(w.intents[id], w.s.writes[id], plan, size, first)
    ensures IntentOk(w, id)
  {
    var it := w.intents[id];
    forall k | 0 <= k < |it.slots|
      ensures Overlaps(it.slots[k], it.blockSize, it.offset, |it.data|) && Owned(w, id, k, it.slots[k].newId)
    {
      PlannedSlotOverlaps(it.slots[k], it.blockSize, it.offset, |it.data|, plan, size, first, k);
      ReservedIdsAreOwned(w, id, k);
    }
    forall j, k | 0 <= j < k < |it.slots| ensures it.slots[j].newId != it.slots[k].newId {
      OwnedIdsDiffer(w, id, j, k);
    }
  }

  lemma {:induction false} OpenedIntentIsOk(w: World, file: FileRecord, op: Op, data: seq<Byte>, id: string)
    requires op.BeginWriteOp? && id in w.s.writes && id in w.intents && id in w.used
    requires Opened(file, op, data, w.s.writes[id], w.intents[id]) && Unique(w.s) && Known(w.s, w.used)
    ensures IntentOk(w, id)
  {
    var plan, first := OpenedPlan(file, op, data, w.s.writes[id], w.intents[id]);
    FollowingIntentIsOk(w, id, plan, Sum(BlockSizes(file.blocks)), first);
  }

  lemma {:induction false} OpenedIsPlanned(s: State, used: set<string>, p: Path, store: Store, op: Op, r: Reservation,
        it: Intent, content: seq<Byte>)
    requires op.BeginWriteOp? && CommittedFile(s.root, p).Ok? && Known(s, used) && "" !in used
    requires var file := CommittedFile(s.root, p).value;
             && Opened(file, op, it.data, r, it) && file.blockSize > 0
                 && Holds(file.blocks, store, content, file.blockSize)
    ensures exists plan, first :: Planned(CommittedFile(s.root, p).value, content, it, plan, first)
  {
    var file := CommittedFile(s.root, p).value;
    SizesOfPieces(file.blocks, store, content, file.blockSize);
    var plan, first := OpenedPlan(file, op, it.data, r, it);
    forall k | 0 <= k < |plan| ensures OldBlock(file.blocks, it.slots[k]) {
      if it.slots[k].index < |file.blocks| {
        assert IdAt(s, InFile(p, it.slots[k].index)) == Some(file.blocks[it.slots[k].index].id);
      }
    }
    assert Planned(file, content, it, plan, first);
  }

  lemma {:induction false} AfterBegin(w: World, op: Op, data: seq<Byte>)
    requires Allowed(w, Begin(op, data)) && Succeeds(w.s, op) && Step(w.s, op).1.value.Writing?
    ensures var w' := Next(w, Begin(op, data));
            && w'.s == Step(w.s, op).0 && w'.store == w.store && w'.horizon == w.horizon
            && w'.intents == w.intents[op.writeId := NewIntent(op, data, Step(w.s, op).1.value)]
  {
  }

  /** A reservation with nothing written yet needs only its plan. */
  lemma {:induction false} UnwrittenIsBacked(w: World, p: Path, content: seq<Byte>, id: string)
    requires id in w.s.writes && id in w.intents && CommittedFile(w.s.root, p).Ok?
    requires !w.intents[id].published && w.intents[id].written == 0 && SlotsAgree(w.intents[id], w.s.writes[id])
    requires var file := CommittedFile(w.s.root, p).value;
             && w.s.writes[id].baseVersion == file.version && w.s.writes[id].blockSize == file.blockSize
             && exists plan, first :: Planned(file, content, w.intents[id], plan, first)
    ensures Backed(w, p, content, id)
  {
  }

  /** The new reservation is backed: nothing is written yet. */
  lemma {:induction false} OpenedIsBacked(w: World, op: Op, data: seq<Byte>, p: Path, content: seq<Byte>)
    requires Inv(w, p, content) && Allowed(w, Begin(op, data)) && Succeeds(w.s, op) && Target(op) == Ok(p)
    ensures var w' := Next(w, Begin(op, data));
            CommittedFile(w'.s.root, p).Ok? && op.writeId in w'.s.writes && Backed(w', p, content, op.writeId)
  {
    BegunWrite(w.s, op, data);
    BegunReservation(w.s, op);
    AfterBegin(w, op, data);
    var r, it := Step(w.s, op).0.writes[op.writeId], NewIntent(op, data, Step(w.s, op).1.value);
    OpenedIsPlanned(w.s, w.used, p, w.store, op, r, it, content);
    OpenedAgrees(CommittedFile(w.s.root, p).value, op, data, r, it);
    UnwrittenIsBacked(Next(w, Begin(op, data)), p, content, op.writeId);
  }

  lemma {:induction false} OpenedAgrees(file: FileRecord, op: Op, data: seq<Byte>, r: Reservation, it: Intent)
    requires op.BeginWriteOp? && Opened(file, op, data, r, it) && file.blockSize > 0
    ensures SlotsAgree(it, r) && r.blockSize == file.blockSize && r.baseVersion == file.version
    ensures !it.published && it.written == 0
  {
  }

  lemma {:induction false} NewIntentIsOk(w: World, op: Op, data: seq<Byte>)
    requires Sound(w.s, w.used) && Allowed(w, Begin(op, data)) && Succeeds(w.s, op)
    ensures op.writeId in Next(w, Begin(op, data)).intents && IntentOk(Next(w, Begin(op, data)), op.writeId)
  {
    BegunWrite(w.s, op, data);
    SoundStep(w.s, w.used, op);
    assert NewIds(op)[0] == op.writeId;
    OpenedIntentIsOk(Next(w, Begin(op, data)), CommittedFile(w.s.root, Target(op).value).value, op, data, op.writeId);
  }

  lemma {:induction false} BeginKeepsIntents(w: World, op: Op, data: seq<Byte>, id: string)
    requires Sound(w.s, w.used) && Allowed(w, Begin(op, data)) && Succeeds(w.s, op)
    requires id in w.intents && IntentOk(w, id)
    ensures id in Next(w, Begin(op, data)).intents && IntentOk(Next(w, Begin(op, data)), id)
  {
    assert NewIds(op)[0] == op.writeId;
    IntentStep(w, op, id);
    IntentOnlyNeeds(AfterCommand(w, op), Next(w, Begin(op, data)), id);
  }

  lemma {:induction false} BeginKeepsBacking(w: World, op: Op, data: seq<Byte>, p: Path, content: seq<Byte>, id: string)
    requires Inv(w, p, content) && Allowed(w, Begin(op, data)) && Succeeds(w.s, op)
    requires Viable(Next(w, Begin(op, data)).s, p, id)
    ensures CommittedFile(Next(w, Begin(op, data)).s.root, p).Ok? && Backed(Next(w, Begin(op, data)), p, content, id)
  {
    ViableBefore(w.s, w.used, op, p, id);
    BegunWrite(w.s, op, data);
    if id == op.writeId {
      OpenedIsBacked(w, op, data, p, content);
    } else {
      BackedStep(w, op, p, content, id);
    }
  }

  lemma {:induction false} BeginKeepsInv(w: World, op: Op, data: seq<Byte>, p: Path, content: seq<Byte>)
    requires Inv(w, p, content) && Allowed(w, Begin(op, data)) && Succeeds(w.s, op)
    ensures Inv(Next(w, Begin(op, data)), p, content)
  {
    var w' := Next(w, Begin(op, data));
    BeginKeepsWorld(w, op, data);
    StoredStep(w, op, p, content);
    forall id | Viable(w'.s, p, id) ensures Backed(w', p, content, id) {
      BeginKeepsBacking(w, op, data, p, content, id);
    }
  }

  // ----- Blocks written and deleted -----

  /** A place whose bytes matter to the file at `p`: one of its blocks, or a block already
      written for a reservation that could still commit on it. */
  ghost predicate Protected(w: World, p: Path, a: Loc) {
    match a
    case InFile(path, _) => path == p
    case InWrite(id, k) =>
      Viable(w.s, p, id) && w.s.writes[id].expires > w.horizon
      && id in w.intents && k < w.intents[id].written
  }

  ghost predicate SameBytesAt(w: World, store: Store, a: Loc) {
    IdAt(w.s, a).Some? && IdAt(w.s, a).value in w.store ==>
      IdAt(w.s, a).value in store && store[IdAt(w.s, a).value] == w.store[IdAt(w.s, a).value]
  }

  lemma {:induction false} StoreKeepsFile(w: World, store: Store, p: Path, content: seq<Byte>)
    requires Stored(w, p, content) && forall a :: Protected(w, p, a) ==> SameBytesAt(w, store, a)
    ensures Stored(w.(store := store), p, content)
  {
    var file := CommittedFile(w.s.root, p).value;
    forall i | 0 <= i < |file.blocks|
      ensures file.blocks[i].id in store && store[file.blocks[i].id] == w.store[file.blocks[i].id]
    {
      assert IdAt(w.s, InFile(p, i)) == Some(file.blocks[i].id);
      assert Protected(w, p, InFile(p, i)) && SameBytesAt(w, store, InFile(p, i));
    }
    SameBytes(file.blocks, file.blocks, w.store, store, content, file.blockSize);
  }

  lemma {:induction false} StoreKeepsWritten(w: World, store: Store, p: Path, content: seq<Byte>, id: string)
    requires CommittedFile(w.s.root, p).Ok? && Viable(w.s, p, id) && Backed(w, p, content, id)
    requires w.intents[id].written <= |w.intents[id].slots|
    requires forall a :: Protected(w, p, a) ==> SameBytesAt(w, store, a)
    ensures Backed(w.(store := store), p, content, id)
  {
    var it, r, file := w.intents[id], w.s.writes[id], CommittedFile(w.s.root, p).value;
    if r.baseVersion == file.version && r.expires > w.horizon {
      var plan: seq<PlanSlot>, first: nat :| Planned(file, content, it, plan, first);
      forall k | 0 <= k < it.written && k < |it.slots| ensures SlotStored(it.slots[k], it, store, content) {
        assert SlotStored(it.slots[k], it, w.store, content);
        assert IdAt(w.s, InWrite(id, k)) == Some(it.slots[k].newId);
        assert Protected(w, p, InWrite(id, k)) && SameBytesAt(w, store, InWrite(id, k));
      }
    }
  }

  /** Writing or deleting a block that is not protected keeps everything. */
  lemma {:induction false} StoreKeepsInv(w: World, store: Store, p: Path, content: seq<Byte>)
    requires Inv(w, p, content) && forall a :: Protected(w, p, a) ==> SameBytesAt(w, store, a)
    ensures Inv(w.(store := store), p, content)
  {
    var w' := w.(store := store);
    StoreKeepsFile(w, store, p, content);
    forall id | id in w'.intents ensures IntentOk(w', id) {
      IntentOnlyNeeds(w, w', id);
    }
    forall id | Viable(w'.s, p, id) ensures Backed(w', p, content, id) {
      StoreKeepsWritten(w, store, p, content, id);
    }
  }

  lemma {:induction false} NextSlotIsUnprotected(w: World, p: Path, id: string, bytes: seq<Byte>)
    requires id in w.intents && IntentOk(w, id) && w.intents[id].written < |w.intents[id].slots|
    ensures forall a :: Protected(w, p, a) ==> SameBytesAt(w, w.store[NextSlot(w, id).newId := bytes], a)
  {
    var k := w.intents[id].written;
    assert Owned(w, id, k, w.intents[id].slots[k].newId);
  }

  lemma {:induction false} StartsInside<T>(chunks: seq<seq<T>>, content: seq<T>, blockSize: nat, i: nat)
    requires IsChunking(chunks, content, blockSize)
    ensures i < |chunks| <==> Start(i, blockSize) < |content|
  {
    if i < |chunks| {
      StartMono(i, |chunks| - 1, blockSize);
    } else {
      StartMono(|chunks|, i, blockSize);
    }
  }

  /** The block a client writes for a reservation that could still commit is right. */
  lemma {:induction false} WrittenSlotIsRight(file: FileRecord, store: Store, content: seq<Byte>, it: Intent, k: nat)
    requires k < |it.slots| && exists plan, first :: Planned(file, content, it, plan, first)
    requires Holds(file.blocks, store, content, file.blockSize)
    ensures 0 <= it.offset <= |content| && Overlaps(it.slots[k], it.blockSize, it.offset, |it.data|)
    ensures IsChunk(SlotBytes(it.slots[k], it.blockSize, it.offset, it.data, Prior(it.slots[k], store)),
                    Splice(content, it.offset, it.data), it.blockSize, it.slots[k].index)
  {
    var plan: seq<PlanSlot>, first: nat :| Planned(file, content, it, plan, first);
    var slot, pieces := it.slots[k], Pieces(file.blocks, store);
    StartsInside(pieces, content, it.blockSize, slot.index);
    assert OldBlock(file.blocks, slot);
    if slot.index < |file.blocks| {
      assert IsChunk(pieces[slot.index], content, it.blockSize, slot.index);
      assert pieces[slot.index] == store[slot.oldId];
    }
    SlotIsChunk(slot, it.blockSize, it.offset, it.data, Prior(slot, store), content, plan, first, k);
  }

  /** One more slot written, or the client giving up. */
  lemma {:induction false} ProgressKeepsInv(w: World, p: Path, content: seq<Byte>, id: string, it: Intent)
    requires Inv(w, p, content) && id in w.intents && !w.intents[id].published
    requires it == w.intents[id].(written := it.written, abandoned := it.abandoned)
    requires it.written <= |it.slots|
    requires Live(w, p, id) ==> 0 <= it.offset <= |content| && WrittenSoFar(it, w.store, content)
    ensures Inv(w.(intents := w.intents[id := it]), p, content)
  {
    var w' := w.(intents := w.intents[id := it]);
    forall other | other in w'.intents ensures IntentOk(w', other) {
      if other != id {
        IntentOnlyNeeds(w, w', other);
      } else {
        assert IntentOk(w, id);
        assert forall k :: 0 <= k < |it.slots| ==> Owned(w, id, k, it.slots[k].newId) ==>
            Owned(w', id, k, it.slots[k].newId);
      }
    }
    forall other | Viable(w'.s, p, other) ensures Backed(w', p, content, other) {
      assert Backed(w, p, content, other);
      if other == id && w.s.writes[id].baseVersion == CommittedFile(w.s.root, p).value.version {
        var plan, first :| Planned(CommittedFile(w.s.root, p).value, content, w.intents[id], plan, first);
        assert Planned(CommittedFile(w.s.root, p).value, content, it, plan, first);
      }
    }
  }

  /** A block that is overwritten whole is the same whatever was read. */
  lemma {:induction false} FetchedBytes(w: World, p: Path, id: string, prior: seq<Byte>)
    requires CanAdvance(w, id) && Live(w, p, id) && FetchesRight(w, p, id, prior)
    ensures BytesOfNext(w, id, prior) == BytesOfNext(w, id, Prior(NextSlot(w, id), w.store))
  {
    var it, slot := w.intents[id], NextSlot(w, id);
    if Covered(slot, it.blockSize, it.offset, |it.data|) {
      CoveredBytes(Start(slot.index, it.blockSize), slot.newSize, it.offset, it.data, prior);
      CoveredBytes(Start(slot.index, it.blockSize), slot.newSize, it.offset, it.data, Prior(slot, w.store));
    }
  }

  lemma {:induction false} NextIsStored(w: World, p: Path, content: seq<Byte>, id: string, prior: seq<Byte>,
        store: Store)
    requires Inv(w, p, content) && CanAdvance(w, id) && Live(w, p, id) && FetchesRight(w, p, id, prior)
    requires store == w.store[NextSlot(w, id).newId := BytesOfNext(w, id, prior)]
    ensures 0 <= w.intents[id].offset <= |content|
    ensures SlotStored(NextSlot(w, id), w.intents[id], store, content)
  {
    assert Backed(w, p, content, id);
    FetchedBytes(w, p, id, prior);
    WrittenSlotIsRight(CommittedFile(w.s.root, p).value, w.store, content, w.intents[id], w.intents[id].written);
  }

  lemma {:induction false} StoringNextKeepsInv(w: World, p: Path, content: seq<Byte>, id: string, prior: seq<Byte>,
        bytes: seq<Byte>)
    requires Inv(w, p, content) && CanAdvance(w, id) && FetchesRight(w, p, id, prior)
    requires bytes == BytesOfNext(w, id, prior)
    ensures var w1 := w.(store := w.store[NextSlot(w, id).newId := bytes]);
            && Inv(w1, p, content) && !w.intents[id].published
            && (Live(w1, p, id) ==>
                  && 0 <= w.intents[id].offset <= |content|
                  && WrittenSoFar(w.intents[id].(written := w.intents[id].written + 1), w1.store, content))
  {
    assert IntentOk(w, id);
    NextSlotIsUnprotected(w, p, id, bytes);
    var w1 := w.(store := w.store[NextSlot(w, id).newId := bytes]);
    StoreKeepsInv(w, w1.store, p, content);
    if Live(w, p, id) {
      NextIsStored(w, p, content, id, prior, w1.store);
      assert Backed(w1, p, content, id);
      MoreWritten(w.intents[id], w1.store, content);
    }
  }

  lemma {:induction false} WriteNextKeepsInv(w: World, p: Path, content: seq<Byte>, id: string, prior: seq<Byte>,
        bytes: seq<Byte>)
    requires Inv(w, p, content) && CanAdvance(w, id) && FetchesRight(w, p, id, prior)
    requires bytes == BytesOfNext(w, id, prior)
    ensures Inv(Advanced(w, id, bytes), p, content)
  {
    StoringNextKeepsInv(w, p, content, id, prior, bytes);
    ProgressKeepsInv(w.(store := w.store[NextSlot(w, id).newId := bytes]), p, content, id,
                     w.intents[id].(written := w.intents[id].written + 1));
  }

  lemma {:induction false} MoreWritten(it: Intent, store: Store, content: seq<Byte>)
    requires 0 <= it.offset <= |content| && it.written < |it.slots|
    requires WrittenSoFar(it, store, content) && SlotStored(it.slots[it.written], it, store, content)
    ensures WrittenSoFar(it.(written := it.written + 1), store, content)
  {
    var next := it.(written := it.written + 1);
    forall k | 0 <= k < next.written && k < |next.slots| ensures SlotStored(next.slots[k], next, store, content) {
      assert SlotStored(it.slots[k], it, store, content);
    }
  }

  lemma {:induction false} GiveUpKeepsInv(w: World, p: Path, content: seq<Byte>, id: string, junk: seq<Byte>)
    requires Inv(w, p, content) && Allowed(w, GiveUp(id, junk))
    ensures Inv(Next(w, GiveUp(id, junk)), p, content)
  {
    assert IntentOk(w, id);
    NextSlotIsUnprotected(w, p, id, junk);
    var w1 := w.(store := w.store[NextSlot(w, id).newId := junk]);
    StoreKeepsInv(w, w1.store, p, content);
    var it := w.intents[id].(abandoned := true);
    if Live(w1, p, id) {
      assert Backed(w1, p, content, id);
      var plan, first :| Planned(CommittedFile(w1.s.root, p).value, content, w1.intents[id], plan, first);
      assert WrittenSoFar(w1.intents[id], w1.store, content);
      forall k | 0 <= k < it.written && k < |it.slots| ensures SlotStored(it.slots[k], it, w1.store, content) {
        assert SlotStored(w1.intents[id].slots[k], w1.intents[id], w1.store, content);
      }
    }
    ProgressKeepsInv(w1, p, content, id, it);
  }

  lemma {:induction false} OutsideBlockKeepsInv(w: World, p: Path, content: seq<Byte>, e: Event)
    requires Inv(w, p, content) && Allowed(w, e) && (e.PutBlock? || e.Discard?)
    ensures Inv(Next(w, e), p, content)
  {
    var store := Next(w, e).store;
    forall a | Protected(w, p, a) ensures SameBytesAt(w, store, a) {
      assert IdAt(w.s, a) == Some(e.id) ==> false;
    }
    StoreKeepsInv(w, store, p, content);
  }

  lemma {:induction false} TickKeepsInv(w: World, p: Path, content: seq<Byte>, horizon: real)
    requires Inv(w, p, content) && horizon >= w.horizon
    ensures Inv(w.(horizon := horizon), p, content)
  {
    var w' := w.(horizon := horizon);
    forall id | id in w'.intents ensures IntentOk(w', id) {
      IntentOnlyNeeds(w, w', id);
    }
    forall id | Viable(w'.s, p, id) ensures Backed(w', p, content, id) {
      assert Backed(w, p, content, id);
    }
  }

  // ----- Publishing -----

  lemma {:induction false} CommitBeforeExpiry(s: State, op: Op)
    requires op.CommitWriteOp? && Succeeds(s, op)
    ensures op.writeId in s.writes && s.writes[op.writeId].expires > op.now
  {
  }

  lemma {:induction false} PublishedFile(s: State, op: Op, p: Path)
    requires op.CommitWriteOp? && Succeeds(s, op) && Target(op) == Ok(p)
    ensures CommittedFile(s.root, p).Ok? && CommittedFile(Step(s, op).0.root, p).Ok?
    ensures op.writeId in s.writes && |s.writes[op.writeId].slots| == |op.confirmed|
    ensures var file, r := CommittedFile(s.root, p).value, s.writes[op.writeId];
            CommittedFile(Step(s, op).0.root, p).value
            == file.(blocks := Publish(file.blocks, r.slots, op.confirmed).0, version := file.version + 1,
                     blockSize := r.blockSize)
  {
    CommitHoldsTheLock(s, op);
    StepFiles(s, op, p);
  }

  lemma {:induction false} PiecesOfOverlay(blocks: seq<BlockRecord>, base: nat, news: seq<BlockRecord>, store: Store)
    requires base <= |blocks|
    ensures Pieces(Overlay(blocks, base, news), store) == Overlay(Pieces(blocks, store), base, Pieces(news, store))
  {
  }

  ghost predicate AllStored(blocks: seq<BlockRecord>, store: Store) {
    forall i :: 0 <= i < |blocks| ==> blocks[i].id in store && |store[blocks[i].id]| == blocks[i].size
  }

  lemma {:induction false} OverlayHolds(blocks: seq<BlockRecord>, first: nat, news: seq<BlockRecord>, store: Store,
        content: seq<Byte>, blockSize: nat)
    requires first <= |blocks| && AllStored(blocks, store) && AllStored(news, store)
    requires IsChunking(Overlay(Pieces(blocks, store), first, Pieces(news, store)), content, blockSize)
    ensures Holds(Overlay(blocks, first, news), store, content, blockSize)
  {
    PiecesOfOverlay(blocks, first, news, store);
  }

  /** The new blocks, laid over the old ones, hold the spliced content. */
  lemma {:induction false} PublishedContent(file: FileRecord, store: Store, content: seq<Byte>, it: Intent,
        r: Reservation, confirmed: seq<Confirmed>)
    requires Holds(file.blocks, store, content, file.blockSize)
    requires SlotsAgree(it, r) && Consecutive(r.slots) && ConfirmsReservation(confirmed, r.slots)
    requires exists plan, first :: Planned(file, content, it, plan, first)
    requires 0 <= it.offset <= |content| && it.written == |it.slots| && WrittenSoFar(it, store, content)
    ensures Holds(Publish(file.blocks, r.slots, confirmed).0, store, Splice(content, it.offset, it.data),
                  file.blockSize)
  {
    var plan: seq<PlanSlot>, first: nat :| Planned(file, content, it, plan, first);
    var newBlocks := NewBlocksOf(r.slots, confirmed);
    NewPieces(file, store, content, it, r, confirmed, plan, first);
    OverlayIsSplice(Pieces(file.blocks, store), content, file.blockSize, it.offset, it.data, plan, first,
                    Pieces(newBlocks, store));
    PublishIsOverlay(file.blocks, r.slots, confirmed);
    assert r.slots[0].index == first;
    OverlayHolds(file.blocks, first, newBlocks, store, Splice(content, it.offset, it.data), file.blockSize);
  }

  lemma {:induction false} NewPieces(file: FileRecord, store: Store, content: seq<Byte>, it: Intent, r: Reservation,
        confirmed: seq<Confirmed>, plan: seq<PlanSlot>, first: nat)
    requires SlotsAgree(it, r) && ConfirmsReservation(confirmed, r.slots) && Planned(file, content, it, plan, first)
    requires it.written == |it.slots| && WrittenSoFar(it, store, content)
    ensures AllStored(NewBlocksOf(r.slots, confirmed), store)
    ensures var news := Pieces(NewBlocksOf(r.slots, confirmed), store);
            forall k :: 0 <= k < |plan| ==>
              IsChunk(news[k], Splice(content, it.offset, it.data), file.blockSize, plan[k].index)
  {
    forall k: nat | k < |plan|
      ensures var block := NewBlocksOf(r.slots, confirmed)[k];
              && block.id in store && |store[block.id]| == block.size
              && IsChunk(store[block.id], Splice(content, it.offset, it.data), file.blockSize, plan[k].index)
    {
      NewPiece(file, store, content, it, r, confirmed, plan, first, k);
    }
  }

  lemma {:induction false} NewPiece(file: FileRecord, store: Store, content: seq<Byte>, it: Intent, r: Reservation,
                   confirmed: seq<Confirmed>, plan: seq<PlanSlot>, first: nat, k: nat)
    requires SlotsAgree(it, r) && ConfirmsReservation(confirmed, r.slots) && Planned(file, content, it, plan, first)
    requires it.written == |it.slots| && WrittenSoFar(it, store, content) && k < |plan|
    ensures var block := PublishedBlock(r.slots[k], confirmed[k]);
            && block.id in store && |store[block.id]| == block.size
            && IsChunk(store[block.id], Splice(content, it.offset, it.data), file.blockSize, plan[k].index)
  {
    assert SlotStored(it.slots[k], it, store, content);
    StartMono(first + k, first + |plan| - 1, file.blockSize);
  }

  /** A commit on the file itself: its content becomes the splice, and every other
      reservation on it has lost. */
  lemma {:induction false} CommitStoresSplice(w: World, op: Op, p: Path, content: seq<Byte>)
    requires Inv(w, p, content) && Allowed(w, Commit(op)) && Succeeds(w.s, op) && Target(op) == Ok(p)
    ensures op.writeId in w.intents && 0 <= w.intents[op.writeId].offset <= |content|
    ensures Stored(AfterCommand(w, op), p, Splice(content, w.intents[op.writeId].offset, w.intents[op.writeId].data))
  {
    CommitHoldsTheLock(w.s, op);
    CommitBeforeExpiry(w.s, op);
    PublishedFile(w.s, op, p);
    assert Backed(w, p, content, op.writeId);
    PublishedContent(CommittedFile(w.s.root, p).value, w.store, content, w.intents[op.writeId],
                     w.s.writes[op.writeId], op.confirmed);
  }

  lemma {:induction false} BackedAfterCommit(w: World, op: Op, p: Path, content: seq<Byte>, content': seq<Byte>,
        id: string)
    requires Inv(w, p, content) && Allowed(w, Commit(op)) && Succeeds(w.s, op)
    requires Target(op) == Ok(p) || content' == content
    requires Viable(Step(w.s, op).0, p, id)
    ensures CommittedFile(Step(w.s, op).0.root, p).Ok? && Backed(Next(w, Commit(op)), p, content', id)
  {
    CommitHoldsTheLock(w.s, op);
    ViableBefore(w.s, w.used, op, p, id);
    assert Backed(w, p, content, id) && id != op.writeId;
    if Target(op) == Ok(p) {
      PublishedFile(w.s, op, p);
    } else {
      BackedStep(w, op, p, content, id);
    }
  }

  lemma {:induction false} IntentAfterCommit(w: World, op: Op, id: string)
    requires Sound(w.s, w.used) && Allowed(w, Commit(op)) && Succeeds(w.s, op)
    requires id in w.intents && IntentOk(w, id)
    ensures id in Next(w, Commit(op)).intents && IntentOk(Next(w, Commit(op)), id)
  {
    if id != op.writeId {
      IntentStep(w, op, id);
      IntentOnlyNeeds(AfterCommand(w, op), Next(w, Commit(op)), id);
    }
  }

  /** The content of the file at `p` after an event. */
  ghost function ContentAfter(w: World, e: Event, p: Path, content: seq<Byte>): seq<Byte> {
    if e.Commit? && e.op.CommitWriteOp? && Succeeds(w.s, e.op) && Target(e.op) == Ok(p)
       && e.op.writeId in w.intents && 0 <= w.intents[e.op.writeId].offset <= |content|
    then Splice(content, w.intents[e.op.writeId].offset, w.intents[e.op.writeId].data)
    else content
  }

  lemma {:induction false} CommitKeepsInv(w: World, op: Op, p: Path, content: seq<Byte>)
    requires Inv(w, p, content) && Allowed(w, Commit(op)) && Succeeds(w.s, op)
    ensures Inv(Next(w, Commit(op)), p, ContentAfter(w, Commit(op), p, content))
  {
    var w', content' := Next(w, Commit(op)), ContentAfter(w, Commit(op), p, content);
    CommitKeepsWorld(w, op);
    if Target(op) == Ok(p) {
      CommitStoresSplice(w, op, p, content);
    } else {
      StoredStep(w, op, p, content);
    }
    forall id | Viable(w'.s, p, id) ensures Backed(w', p, content', id) {
      BackedAfterCommit(w, op, p, content, content', id);
    }
  }

  // ----- Whole runs -----

  /** What can happen while `p` stays: reads for a write on it answer what is stored. */
  ghost predicate Happens(w: World, e: Event, p: Path) {
    && Allowed(w, e)
    && (e.Command? ==> !Removes(w.s, e.op, p))
    && (e.WriteNext? ==> FetchesRight(w, p, e.writeId, e.prior))
  }

  /** Every event keeps the invariant; only a commit on the file changes its content. */
  lemma {:induction false} EventKeepsInv(w: World, e: Event, p: Path, content: seq<Byte>)
    requires Inv(w, p, content) && Happens(w, e, p)
    ensures Inv(Next(w, e), p, ContentAfter(w, e, p, content))
  {
    match e
    case Command(op) => CommandKeepsInv(w, op, p, content);
    case Begin(op, data) =>
      if Succeeds(w.s, op) {
        BeginKeepsInv(w, op, data, p, content);
      } else {
        CommandKeepsInv(w, op, p, content);
      }
    case WriteNext(id, prior) => WriteNextKeepsInv(w, p, content, id, prior, BytesOfNext(w, id, prior));
    case GiveUp(id, junk) => GiveUpKeepsInv(w, p, content, id, junk);
    case Commit(op) =>
      if Succeeds(w.s, op) {
        CommitKeepsInv(w, op, p, content);
      } else {
        assert NewIds(op) == [];
        CommandKeepsInv(w, op, p, content);
      }
    case PutBlock(_, _) => OutsideBlockKeepsInv(w, p, content, e);
    case Discard(_) => OutsideBlockKeepsInv(w, p, content, e);
    case Tick(horizon) => TickKeepsInv(w, p, content, horizon);
  }

  /** A run on which `p` is not removed. */
  ghost predicate AllowedRun(w: World, events: seq<Event>, p: Path)
    decreases |events|
  {
    events == [] || (Happens(w, events[0], p) && AllowedRun(Next(w, events[0]), events[1..], p))
  }

  ghost function End(w: World, events: seq<Event>, p: Path): World
    requires AllowedRun(w, events, p)
    decreases |events|
  {
    if events == [] then w else End(Next(w, events[0]), events[1..], p)
  }

  /** The committed splices on `p`, applied one after the other in commit order. */
  ghost function Splices(w: World, events: seq<Event>, p: Path, content: seq<Byte>): seq<Byte>
    requires AllowedRun(w, events, p)
    decreases |events|
  {
    if events == [] then content
    else Splices(Next(w, events[0]), events[1..], p, ContentAfter(w, events[0], p, content))
  }

  /** Over any run, the bytes of the file are the sequential application of the writes that
      committed. Nothing else, in any order, changes a byte. */
  lemma {:induction false} ContentIsTheCommittedSplices(w: World, events: seq<Event>, p: Path, content: seq<Byte>)
    requires Inv(w, p, content) && AllowedRun(w, events, p)
    ensures Inv(End(w, events, p), p, Splices(w, events, p, content))
    ensures var end := End(w, events, p);
            && CommittedFile(end.s.root, p).Ok?
            && Flatten(Pieces(CommittedFile(end.s.root, p).value.blocks, end.store)) == Splices(w, events, p, content)
    decreases |events|
  {
    if events == [] {
      var file := CommittedFile(w.s.root, p).value;
      SizesOfPieces(file.blocks, w.store, content, file.blockSize);
    } else {
      EventKeepsInv(w, events[0], p, content);
      ContentIsTheCommittedSplices(Next(w, events[0]), events[1..], p, ContentAfter(w, events[0], p, content));
    }
  }

  /** Where runs may start: a laid out file whose blocks are stored, on which no write can still
      commit. */
  lemma {:induction false} UploadedFileStarts(w: World, p: Path)
    requires WorldOk(w) && CommittedFile(w.s.root, p).Ok? && forall id :: !Viable(w.s, p, id)
    requires var file := CommittedFile(w.s.root, p).value;
             Layout(BlockSizes(file.blocks), file.blockSize) && AllStored(file.blocks, w.store)
    ensures Inv(w, p, Flatten(Pieces(CommittedFile(w.s.root, p).value.blocks, w.store)))
  {
    var file := CommittedFile(w.s.root, p).value;
    assert Lengths(Pieces(file.blocks, w.store)) == BlockSizes(file.blocks);
    ChunkingOfLayout(Pieces(file.blocks, w.store), file.blockSize);
  }

  // ----- Worlds without a file to follow -----

  lemma {:induction false} CommandKeepsWorld(w: World, op: Op)
    requires WorldOk(w) && FreshOp(w.used, op) && "" !in NewIds(op)
    requires (op.CommitWriteOp? || op.BeginWriteOp?) ==> !Succeeds(w.s, op)
    ensures WorldOk(AfterCommand(w, op))
  {
    var w' := AfterCommand(w, op);
    SoundStep(w.s, w.used, op);
    NamelessStaysNew(w.used, op);
    forall id | id in w'.intents ensures IntentOk(w', id) {
      IntentStep(w, op, id);
    }
  }

  lemma {:induction false} BeginKeepsWorld(w: World, op: Op, data: seq<Byte>)
    requires WorldOk(w) && Allowed(w, Begin(op, data)) && Succeeds(w.s, op)
    ensures WorldOk(Next(w, Begin(op, data)))
  {
    var w' := Next(w, Begin(op, data));
    SoundStep(w.s, w.used, op);
    NamelessStaysNew(w.used, op);
    forall id | id in w'.intents ensures IntentOk(w', id) {
      if id in w.intents {
        BeginKeepsIntents(w, op, data, id);
      } else {
        NewIntentIsOk(w, op, data);
      }
    }
  }

  lemma {:induction false} CommitKeepsWorld(w: World, op: Op)
    requires WorldOk(w) && Allowed(w, Commit(op)) && Succeeds(w.s, op)
    ensures WorldOk(Next(w, Commit(op)))
  {
    assert NewIds(op) == [];
    SoundStep(w.s, w.used, op);
    NamelessStaysNew(w.used, op);
    forall id | id in Next(w, Commit(op)).intents ensures IntentOk(Next(w, Commit(op)), id) {
      IntentAfterCommit(w, op, id);
    }
  }

  /** The store, the horizon, or how far one write got. */
  lemma {:induction false} RestKeepsWorld(w: World, w': World)
    requires WorldOk(w) && w'.s == w.s && w'.used == w.used && w'.intents.Keys == w.intents.Keys
    requires forall id :: id in w.intents ==> SameWrite(w.intents[id], w'.intents[id])
    ensures WorldOk(w')
  {
    forall id | id in w'.intents ensures IntentOk(w', id) {
      assert IntentOk(w, id) && SameWrite(w.intents[id], w'.intents[id]);
      forall k | 0 <= k < |w'.intents[id].slots| && !w'.intents[id].published
        ensures Owned(w', id, k, w'.intents[id].slots[k].newId)
      {
        assert Owned(w, id, k, w.intents[id].slots[k].newId);
      }
    }
  }

  ghost predicate SameWrite(it: Intent, it': Intent) {
    && it' == it.(written := it'.written, abandoned := it'.abandoned)
    && it.written <= it'.written && (it'.written == it.written || it'.written <= |it.slots|)
  }

  lemma {:induction false} EventKeepsWorld(w: World, e: Event)
    requires WorldOk(w) && Allowed(w, e)
    ensures WorldOk(Next(w, e))
  {
    match e
    case Command(op) => CommandKeepsWorld(w, op);
    case Begin(op, data) =>
      if Succeeds(w.s, op) {
        BeginKeepsWorld(w, op, data);
      } else {
        CommandKeepsWorld(w, op);
      }
    case Commit(op) =>
      if Succeeds(w.s, op) {
        CommitKeepsWorld(w, op);
      } else {
        assert NewIds(op) == [];
        CommandKeepsWorld(w, op);
      }
    case _ => RestKeepsWorld(w, Next(w, e));
  }
}
