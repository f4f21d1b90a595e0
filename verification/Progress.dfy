/** A write that nothing disturbs goes through. What BeginWrite told the client stays true
    until a repair or another commit; while it is true, and every block of the file has a
    copy where the metadata says, each old block can be read; and the client that reads and
    writes on can commit, after which the file holds the data. */
module Progress {
  import opened Common
  import opened Paths
  import opened Tree
  import opened WritePlan
  import opened Mutations
  import opened Effects
  import opened Chunking
  import opened History
  import opened Transactions
  import opened Walks
  import opened Locking
  import opened FileContent
  import opened Entries
  import opened LockCommands
  import opened WriteCommands
  import opened Copies
  import opened Cluster
  import G = Collector
  import P = WriteProtocol

  // ----- What the client was told -----

  /** The old block of each slot, with its size and its nodes, as the file has it. */
  ghost predicate ToldRight(blocks: seq<BlockRecord>, slots: seq<SlotView>) {
    forall k :: 0 <= k < |slots| ==>
      if slots[k].index < |blocks|
      then slots[k].oldId == blocks[slots[k].index].id && slots[k].oldSize == blocks[slots[k].index].size
           && slots[k].oldAddresses == blocks[slots[k].index].addresses
      else slots[k].oldId == "" && slots[k].oldSize == 0 && slots[k].oldAddresses == []
  }

  ghost predicate Informed(s: State, p: Path, it: P.Intent) {
    Committed(s.root, p) && ToldRight(FileOf(s.root, p).blocks, it.slots)
  }

  /** Whoever begins a write is told the blocks, sizes and nodes of the file. */
  lemma {:induction false} BeginInforms(w: P.World, op: Op, data: seq<Byte>)
    requires P.Allowed(w, P.Begin(op, data)) && Succeeds(w.s, op)
    ensures Parts(op.path).Ok? && op.writeId in P.Next(w, P.Begin(op, data)).intents
    ensures var w' := P.Next(w, P.Begin(op, data));
            Informed(w'.s, Parts(op.path).value, w'.intents[op.writeId])
  {
    var p := Parts(op.path).value;
    P.BegunWrite(w.s, op, data);
    P.AfterBegin(w, op, data);
    BeginWriteExactly(w.s, op);
    var file := FileOf(w.s.root, p);
    var r, answer :| Step(w.s, op) == (w.s.(locks := OnlyLive(w.s, p, op.now),
                               writes := OnlyLiveWrites(w.s, op.now)[op.writeId := r]), Ok(answer))
         && ReservedFor(r, op, p, file) && Describes(answer, op, r, file);
    forall k | 0 <= k < |answer.slots| ensures Told(answer.slots[k], r.slots[k], file.blocks) {
    }
  }

  /** A successful repair of a block of the file. */
  ghost predicate Repairs(s: State, op: Op, p: Path) {
    op.UpdateReplicasOp? && Succeeds(s, op) && Target(op) == Ok(p)
  }

  ghost predicate Publishes(s: State, op: Op, p: Path) {
    op.CommitWriteOp? && Succeeds(s, op) && Target(op) == Ok(p)
  }

  /** Only repairs and commits change what a write was told. */
  lemma {:induction false} CommandKeepsInformed(s: State, op: Op, p: Path, it: P.Intent)
    requires Informed(s, p, it) && !Removes(s, op, p) && !Repairs(s, op, p) && !Publishes(s, op, p)
    ensures Informed(Step(s, op).0, p, it)
  {
    CommittedFileIsCommitted(s.root, p);
    P.DataStep(s, op, p);
    CommittedFileIsCommitted(Step(s, op).0.root, p);
    StepFiles(s, op, p);
    if Succeeds(s, op) && Target(op) == Ok(p) {
      if op.ConfirmBlockOp? || op.CompleteUploadOp? || op.BeginUploadOp? || op.AbortUploadOp? {
        UploadCommandsSpareCommitted(s, op);
      }
    }
  }

  // ----- Reading old blocks -----

  /** The nodes from which the next old block can be read are those that the metadata names
      and that have it, whichever write asks. */
  lemma {:induction false} FetchableIff(b: G.Bounds, x: System, p: Path, content: seq<Byte>, id: string, from: Copy)
    requires P.Inv(View(b, x), p, content) && P.Live(View(b, x), p, id) && P.CanAdvance(View(b, x), id)
    requires Informed(x.y.s, p, x.intents[id])
    ensures CanFetch(b, x, id, from) <==>
            || Overwritten(P.NextSlot(View(b, x), id), x.intents[id])
            || P.NextSlot(View(b, x), id).index >= |FileOf(x.y.s.root, p).blocks|
            || IsCopyOf(x, FileOf(x.y.s.root, p).blocks[P.NextSlot(View(b, x), id).index], from)
  {
    var w := View(b, x);
    var slot, it := P.NextSlot(w, id), x.intents[id];
    NextSlotHasOldBlock(w, p, content, id);
    StartIsProduct(slot.index, it.blockSize);
    assert Overwritten(slot, it) <==> Covered(slot, it.blockSize, it.offset, |it.data|);
  }

  /** The write covers the whole of the new block. */
  predicate Overwritten(slot: SlotView, it: P.Intent) {
    it.offset <= slot.index * it.blockSize && slot.index * it.blockSize + slot.newSize <= it.offset + |it.data|
  }

  predicate IsCopyOf(x: System, block: BlockRecord, from: Copy) {
    from.id == block.id && from.address in block.addresses && from in x.bytes
  }

  lemma {:induction false} NextSlotHasOldBlock(w: P.World, p: Path, content: seq<Byte>, id: string)
    requires P.Inv(w, p, content) && P.Live(w, p, id) && P.CanAdvance(w, id)
    ensures Committed(w.s.root, p)
    ensures P.NextSlot(w, id).index < |FileOf(w.s.root, p).blocks| <==> P.NextSlot(w, id).oldId != ""
  {
    CommittedFileIsCommitted(w.s.root, p);
    assert P.Backed(w, p, content, id);
    var plan, first :| P.Planned(FileOf(w.s.root, p), content, w.intents[id], plan, first);
    assert P.OldBlock(FileOf(w.s.root, p).blocks, P.NextSlot(w, id));
  }

  /** Every block of the file has a copy on a node that the metadata names for it. */
  ghost predicate Served(x: System, p: Path) {
    Committed(x.y.s.root, p)
    && forall i: nat :: i < |FileOf(x.y.s.root, p).blocks| ==> HasCopy(x, FileOf(x.y.s.root, p).blocks[i])
  }

  ghost predicate HasCopy(x: System, block: BlockRecord) {
    exists a :: a in block.addresses && Copy(block.id, a) in x.bytes
  }

  /** Where nothing that is named is missing, a file whose blocks all have a node is served. */
  lemma {:induction false} NamedCopiesServe(x: System, p: Path)
    requires Committed(x.y.s.root, p)
    requires forall i: nat :: i < |FileOf(x.y.s.root, p).blocks| ==> FileOf(x.y.s.root, p).blocks[i].addresses != []
    requires forall c: Copy :: NamedIn(x.y.s, p, c.id, c.address) ==> c in x.bytes
    ensures Served(x, p)
  {
    var blocks := FileOf(x.y.s.root, p).blocks;
    forall i: nat | i < |blocks| ensures HasCopy(x, blocks[i]) {
      var a := blocks[i].addresses[0];
      assert NamedAt(x.y.s.root, p, i, blocks[i].id, a);
      assert Copy(blocks[i].id, a) in x.bytes;
    }
  }

  /** A write that can still commit, whose client knows where the blocks are. */
  ghost predicate Underway(b: G.Bounds, x: System, p: Path, content: seq<Byte>, id: string) {
    && Inv(b, x, p, content) && Served(x, p)
    && P.Live(View(b, x), p, id) && id in x.intents && !x.intents[id].abandoned
    && Informed(x.y.s, p, x.intents[id])
  }

  /** The client of such a write always finds the old block that it needs next. */
  lemma {:induction false} NextBlockIsFound(b: G.Bounds, x: System, p: Path, content: seq<Byte>, id: string)
    returns (from: Copy)
    requires Underway(b, x, p, content, id) && x.intents[id].written < |x.intents[id].slots|
    ensures P.CanAdvance(View(b, x), id) && CanFetch(b, x, id, from)
  {
    var w := View(b, x);
    assert P.IntentOk(w, id);
    var slot, blocks := P.NextSlot(w, id), FileOf(x.y.s.root, p).blocks;
    if 0 <= slot.index < |blocks| {
      assert HasCopy(x, blocks[slot.index]);
      var a :| a in blocks[slot.index].addresses && Copy(blocks[slot.index].id, a) in x.bytes;
      from := Copy(blocks[slot.index].id, a);
    } else {
      from := Copy("", "");
    }
    FetchableIff(b, x, p, content, id, from);
  }

  // ----- Writing to the end -----

  /** One block written: the write is still underway, one slot further. */
  lemma {:induction false} WriteAdvances(b: G.Bounds, x: System, p: Path, content: seq<Byte>, id: string)
    returns (e: Event)
    requires Underway(b, x, p, content, id) && x.intents[id].written < |x.intents[id].slots|
    ensures e.Write? && e.writeId == id && Happens(b, x, e, p)
    ensures var x' := Next(b, x, e);
            && Underway(b, x', p, content, id) && x'.y.s == x.y.s && x'.y.clock == x.y.clock
            && x'.intents[id] == x.intents[id].(written := x.intents[id].written + 1)
  {
    var from := NextBlockIsFound(b, x, p, content, id);
    e := Write(id, from);
    WriteHappens(b, x, p, id, from);
    EventKeepsInv(b, x, e, p, content);
    StateStays(b, x, e);
    IntentsAfterWrite(b, x, id, from);
    BytesAfterWrite(b, x, id, from);
    MapGrows(x.bytes, Stores(b, x, e));
    MoreIsServed(x, Next(b, x, e), p);
  }

  lemma {:induction false} WriteHappens(b: G.Bounds, x: System, p: Path, id: string, from: Copy)
    requires SystemOk(b, x) && P.CanAdvance(View(b, x), id) && CanFetch(b, x, id, from)
    requires P.Live(View(b, x), p, id) && id in x.intents && !x.intents[id].published
    ensures Happens(b, x, Write(id, from), p)
  {
    var w := View(b, x);
    assert P.IntentOk(w, id);
    assert P.Owned(w, id, x.intents[id].written, P.NextSlot(w, id).newId);
  }

  lemma {:induction false} IntentsAfterWrite(b: G.Bounds, x: System, id: string, from: Copy)
    requires Allowed(b, x, Write(id, from))
    ensures Next(b, x, Write(id, from)).intents
            == x.intents[id := x.intents[id].(written := x.intents[id].written + 1)]
  {
    IntentsOfNext(b, x, Write(id, from));
  }

  lemma {:induction false} MapGrows<K, V>(m: map<K, V>, more: map<K, V>)
    ensures (m + more).Keys >= m.Keys
  {
  }

  lemma {:induction false} BytesAfterWrite(b: G.Bounds, x: System, id: string, from: Copy)
    requires Allowed(b, x, Write(id, from))
    ensures Next(b, x, Write(id, from)).bytes == x.bytes + Stores(b, x, Write(id, from))
    ensures Next(b, x, Write(id, from)).y.clock == x.y.clock
  {
    NodesAfter(b, x, Write(id, from));
  }

  lemma {:induction false} MoreIsServed(x: System, x': System, p: Path)
    requires Served(x, p) && x'.y.s.root == x.y.s.root && x'.bytes.Keys >= x.bytes.Keys
    ensures Served(x', p)
  {
    forall i: nat | i < |FileOf(x.y.s.root, p).blocks| ensures HasCopy(x', FileOf(x.y.s.root, p).blocks[i]) {
      assert HasCopy(x, FileOf(x.y.s.root, p).blocks[i]);
    }
  }

  /** What must not happen to it: its client gives up, its file is repaired or published by
      another, its last copies go, or its lock or lease ends. */
  ghost predicate Spares(b: G.Bounds, x: System, e: Event, p: Path, id: string)
    requires Allowed(b, x, e)
  {
    && (e.Command? ==> !Repairs(x.y.s, e.op, p)) && (e.Commit? ==> !Publishes(x.y.s, e.op, p))
    && !(e.GiveUp? && e.writeId == id)
    && Served(Next(b, x, e), p) && P.Live(View(b, Next(b, x, e)), p, id)
  }

  /** Anything else leaves the write underway. */
  lemma {:induction false} EventKeepsUnderway(b: G.Bounds, x: System, e: Event, p: Path, content: seq<Byte>, id: string)
    requires Underway(b, x, p, content, id) && Happens(b, x, e, p) && Spares(b, x, e, p, id)
    ensures Underway(b, Next(b, x, e), p, content, id)
  {
    EventKeepsInv(b, x, e, p, content);
    ContentStays(b, x, e, p, content);
    WriterIsUsed(b, x, id);
    IntentStays(b, x, e, id);
    EventKeepsInformed(b, x, e, p, id);
    SameSlotsSameTold(Next(b, x, e).y.s, p, x.intents[id], Next(b, x, e).intents[id]);
  }

  lemma {:induction false} SameSlotsSameTold(s: State, p: Path, it: P.Intent, it': P.Intent)
    requires Informed(s, p, it) && it'.slots == it.slots
    ensures Informed(s, p, it')
  {
  }

  lemma {:induction false} WriterIsUsed(b: G.Bounds, x: System, id: string)
    requires SystemOk(b, x) && id in x.intents
    ensures id in x.y.used
  {
    assert P.IntentOk(View(b, x), id);
  }

  lemma {:induction false} ContentStays(b: G.Bounds, x: System, e: Event, p: Path, content: seq<Byte>)
    requires e.Commit? ==> !Publishes(x.y.s, e.op, p)
    ensures ContentAfter(b, x, e, p, content) == content
  {
  }

  lemma {:induction false} EventKeepsInformed(b: G.Bounds, x: System, e: Event, p: Path, id: string)
    requires id in x.intents && Informed(x.y.s, p, x.intents[id]) && Happens(b, x, e, p)
    requires (e.Command? ==> !Repairs(x.y.s, e.op, p)) && (e.Commit? ==> !Publishes(x.y.s, e.op, p))
    ensures Informed(Next(b, x, e).y.s, p, x.intents[id])
  {
    if e.Command? || e.Begin? || e.Commit? {
      StateAfterCommand(b, x, e);
      CommandIsSpared(b, x, e, p);
      CommandKeepsInformed(x.y.s, e.op, p, x.intents[id]);
    } else {
      StateStays(b, x, e);
    }
  }

  lemma {:induction false} CommandIsSpared(b: G.Bounds, x: System, e: Event, p: Path)
    requires (e.Command? || e.Begin? || e.Commit?) && Happens(b, x, e, p)
    requires (e.Command? ==> !Repairs(x.y.s, e.op, p)) && (e.Commit? ==> !Publishes(x.y.s, e.op, p))
    ensures Next(b, x, e).y.s == Step(x.y.s, e.op).0
    ensures !Removes(x.y.s, e.op, p) && !Repairs(x.y.s, e.op, p) && !Publishes(x.y.s, e.op, p)
  {
  }

  lemma {:induction false} StateStays(b: G.Bounds, x: System, e: Event)
    requires Allowed(b, x, e) && !e.Command? && !e.Begin? && !e.Commit?
    ensures Next(b, x, e).y.s == x.y.s
  {
  }

  /** A write keeps what it was told, and goes on unless its client gives up. */
  ghost predicate GoesOn(before: map<string, P.Intent>, after: map<string, P.Intent>, id: string)
    requires id in before
  {
    id in after && after[id].slots == before[id].slots && after[id].abandoned == before[id].abandoned
  }

  lemma {:induction false} IntentStays(b: G.Bounds, x: System, e: Event, id: string)
    requires id in x.intents && id in x.y.used && Allowed(b, x, e) && !(e.GiveUp? && e.writeId == id)
    ensures GoesOn(x.intents, Next(b, x, e).intents, id)
  {
    if ForClients(b, x, e).Some? {
      GoesOnAtClients(View(b, x), ForClients(b, x, e).value, id);
    }
    IntentsOfNext(b, x, e);
  }

  lemma {:induction false} IntentsOfNext(b: G.Bounds, x: System, e: Event)
    requires Allowed(b, x, e)
    ensures Next(b, x, e).intents == ViewAfter(b, x, e).intents
  {
  }

  lemma {:induction false} GoesOnAtClients(w: P.World, e: P.Event, id: string)
    requires P.Allowed(w, e) && id in w.intents && id in w.used && !(e.GiveUp? && e.writeId == id)
    ensures GoesOn(w.intents, P.Next(w, e).intents, id)
  {
    if e.Begin? {
      assert NewIds(e.op)[0] == e.op.writeId;
    }
  }

  /** The client writes all that is left. */
  lemma {:induction false} WritesToTheEnd(b: G.Bounds, x: System, p: Path, content: seq<Byte>, id: string)
    returns (events: seq<Event>)
    requires Underway(b, x, p, content, id) && x.intents[id].written <= |x.intents[id].slots|
    ensures AllowedRun(b, x, events, p) && OnlyWrites(events, id)
    ensures |events| == |x.intents[id].slots| - x.intents[id].written
    ensures var end := End(b, x, events, p);
            && Underway(b, end, p, content, id) && end.y.s == x.y.s && end.y.clock == x.y.clock
            && end.intents[id] == x.intents[id].(written := |x.intents[id].slots|)
    decreases |x.intents[id].slots| - x.intents[id].written
  {
    if x.intents[id].written == |x.intents[id].slots| {
      events := [];
    } else {
      var e := WriteAdvances(b, x, p, content, id);
      var rest := WritesToTheEnd(b, Next(b, x, e), p, content, id);
      events := [e] + rest;
      assert events[1..] == rest;
    }
  }

  ghost predicate OnlyWrites(events: seq<Event>, id: string) {
    forall e :: e in events ==> e.Write? && e.writeId == id
  }

  /** A commit in time, by a permitted caller that holds the lock alone, of the blocks as they
      were reserved. */
  ghost predicate CommitFits(b: G.Bounds, x: System, p: Path, id: string, op: Op) {
    && op.CommitWriteOp? && Target(op) == Ok(p) && op.writeId == id
    && x.y.clock - b.delay <= op.now <= x.y.clock
    && WriterError(x.y.s, op.path, op.caller).None? && FindsReservation(x.y.s, op, p) && Publishable(x.y.s, op, p)
  }

  /** The commit of a write that is all written puts the data in the file. */
  lemma {:induction false} CommitLands(b: G.Bounds, x: System, p: Path, content: seq<Byte>, id: string, op: Op)
    requires Underway(b, x, p, content, id) && x.intents[id].written == |x.intents[id].slots|
    requires CommitFits(b, x, p, id, op)
    ensures Happens(b, x, Commit(op), p) && Succeeds(x.y.s, op) && 0 <= x.intents[id].offset <= |content|
    ensures Inv(b, Next(b, x, Commit(op)), p, Splice(content, x.intents[id].offset, x.intents[id].data))
  {
    CommitRefusals(x.y.s, op);
    CommitHappens(b, x, p, id, op);
    P.CommitStoresSplice(View(b, x), op, p, content);
    EventKeepsInv(b, x, Commit(op), p, content);
    SplicedAfter(b, x, op, p, content);
  }

  lemma {:induction false} CommitHappens(b: G.Bounds, x: System, p: Path, id: string, op: Op)
    requires id in x.intents && x.intents[id].written == |x.intents[id].slots| && CommitFits(b, x, p, id, op)
    ensures Happens(b, x, Commit(op), p) && P.Allowed(View(b, x), P.Commit(op))
  {
    assert NewIds(op) == [];
  }

  lemma {:induction false} SplicedAfter(b: G.Bounds, x: System, op: Op, p: Path, content: seq<Byte>)
    requires op.CommitWriteOp? && Succeeds(x.y.s, op) && Target(op) == Ok(p)
    requires op.writeId in x.intents && 0 <= x.intents[op.writeId].offset <= |content|
    ensures ContentAfter(b, x, Commit(op), p, content)
            == Splice(content, x.intents[op.writeId].offset, x.intents[op.writeId].data)
  {
  }

  /** A write of a served file that nothing disturbs goes through. Whoever is granted a
      reservation can fetch what it needs, send every block and commit, and then the file
      holds the data at its offset and the rest as before. */
  lemma {:induction false} UndisturbedWriteLands(b: G.Bounds, x: System, op: Op, data: seq<Byte>, p: Path,
        content: seq<Byte>, commit: Op)
    returns (events: seq<Event>)
    requires Inv(b, x, p, content) && Served(x, p) && Granted(b, x, op, data, p)
    requires CommitFits(b, Next(b, x, Begin(op, data)), p, op.writeId, commit)
    ensures 0 <= op.offset <= |content|
    ensures GoesThrough(b, Next(b, x, Begin(op, data)), op.writeId, |op.proposals|, events, commit, p,
                        Splice(content, op.offset, data))
  {
    BegunIsUnderway(b, x, op, data, p, content);
    events := RestLands(b, Next(b, x, Begin(op, data)), p, content, op.writeId, |op.proposals|, op.offset, data,
                        commit);
  }

  /** The reservation is granted, of a lease that may be used. */
  ghost predicate Granted(b: G.Bounds, x: System, op: Op, data: seq<Byte>, p: Path) {
    && Happens(b, x, Begin(op, data), p) && Succeeds(x.y.s, op) && Target(op) == Ok(p)
    && op.now + op.lease > x.y.clock - b.delay
  }

  /** What a client has to do that was just granted a reservation. */
  ghost predicate BeginsAt(it: P.Intent, op: Op, data: seq<Byte>)
    requires op.BeginWriteOp?
  {
    it.written == 0 && it.offset == op.offset && it.data == data && |it.slots| == |op.proposals|
  }

  /** `n` writes, then the commit, after which the file holds `content`. */
  ghost predicate GoesThrough(b: G.Bounds, x: System, id: string, n: int, events: seq<Event>, commit: Op, p: Path,
        content: seq<Byte>)
  {
    OnlyWrites(events, id) && |events| == n && LandsAfter(b, x, events, commit, p, content)
  }

  /** From the beginning of a write, or the middle. */
  lemma {:induction false} RestLands(b: G.Bounds, x: System, p: Path, content: seq<Byte>, id: string, n: nat,
        offset: int, data: seq<Byte>, commit: Op)
    returns (events: seq<Event>)
    requires Underway(b, x, p, content, id) && n == |x.intents[id].slots| - x.intents[id].written
    requires x.intents[id].offset == offset && x.intents[id].data == data
    requires CommitFits(b, x, p, id, commit)
    ensures 0 <= offset <= |content|
    ensures GoesThrough(b, x, id, n, events, commit, p, Splice(content, offset, data))
  {
    events := WritesToTheEnd(b, x, p, content, id);
    var end := End(b, x, events, p);
    StillFits(b, x, end, p, id, commit);
    CommitLands(b, end, p, content, id, commit);
  }

  lemma {:induction false} StillFits(b: G.Bounds, x: System, x': System, p: Path, id: string, op: Op)
    requires CommitFits(b, x, p, id, op) && x'.y.s == x.y.s && x'.y.clock == x.y.clock
    ensures CommitFits(b, x', p, id, op)
  {
  }

  /** The events can happen, then the commit succeeds, and the file holds `content`. */
  ghost predicate LandsAfter(b: G.Bounds, x: System, events: seq<Event>, commit: Op, p: Path, content: seq<Byte>) {
    AllowedRun(b, x, events, p) && Lands(b, End(b, x, events, p), commit, p, content)
  }

  ghost predicate Lands(b: G.Bounds, x: System, commit: Op, p: Path, content: seq<Byte>) {
    && Happens(b, x, Commit(commit), p) && Succeeds(x.y.s, commit)
    && Inv(b, Next(b, x, Commit(commit)), p, content)
  }

  /** A reservation just made can still commit. */
  lemma {:induction false} BegunIsLive(w: P.World, op: Op, data: seq<Byte>, p: Path)
    requires P.Allowed(w, P.Begin(op, data)) && Succeeds(w.s, op) && Target(op) == Ok(p)
    requires op.now + op.lease > w.horizon
    ensures P.Live(P.Next(w, P.Begin(op, data)), p, op.writeId)
    ensures Step(w.s, op).0.root == w.s.root
    ensures var intents := P.Next(w, P.Begin(op, data)).intents;
            op.writeId in intents && BeginsAt(intents[op.writeId], op, data) && !intents[op.writeId].abandoned
  {
    P.BegunWrite(w.s, op, data);
    P.AfterBegin(w, op, data);
    BeginWriteExactly(w.s, op);
    var file := FileOf(w.s.root, p);
    CommittedFileIsCommitted(w.s.root, p);
    var r, answer :| Step(w.s, op) == (w.s.(locks := OnlyLive(w.s, p, op.now),
                               writes := OnlyLiveWrites(w.s, op.now)[op.writeId := r]), Ok(answer))
         && ReservedFor(r, op, p, file) && Describes(answer, op, r, file);
  }

  lemma {:induction false} BegunIsUnderway(b: G.Bounds, x: System, op: Op, data: seq<Byte>, p: Path, content: seq<Byte>)
    requires Inv(b, x, p, content) && Served(x, p) && Granted(b, x, op, data, p)
    ensures var begun := Next(b, x, Begin(op, data));
            && Underway(b, begun, p, content, op.writeId) && BeginsAt(begun.intents[op.writeId], op, data)
  {
    var e := Begin(op, data);
    BeginInforms(View(b, x), op, data);
    ViewOfNext(b, x, e);
    EventKeepsInv(b, x, e, p, content);
    BegunIsLive(View(b, x), op, data, p);
    MoreIsServed(x, Next(b, x, e), p);
  }
}
