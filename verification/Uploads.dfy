/** Uploads end to end: a client opens an upload, sends the blocks of its data, confirms each
    one it sent and completes. Whatever else happens meanwhile, the file then holds exactly
    the data, and the life of its content can start from there. */
module Uploads {
  import opened Common
  import opened Chunking
  import opened Paths
  import opened Tree
  import opened Mutations
  import opened Effects
  import opened Locking
  import opened Conservation
  import opened FileContent
  import opened WriteProtocol

  /** An upload in progress: its blocks and what each must hold. */
  datatype Upload = Upload(path: Path, ids: seq<string>, pieces: seq<seq<Byte>>, blockSize: nat)

  ghost predicate Pending(s: State, u: Upload) {
    && FileAt(s.root, u.path).Some?
    && var file := FileAt(s.root, u.path).value;
       && !file.committed && file.blockSize == u.blockSize && |file.blocks| == |u.ids| == |u.pieces|
       && forall i :: 0 <= i < |u.ids| ==> file.blocks[i].id == u.ids[i]
  }

  ghost predicate IsConfirmed(s: State, u: Upload, i: nat)
    requires Pending(s, u) && i < |u.ids|
  {
    FileAt(s.root, u.path).value.blocks[i].confirmed
  }

  /** The block is stored with its bytes. */
  ghost predicate Sent(store: Store, u: Upload, i: nat)
    requires i < |u.ids| == |u.pieces|
  {
    u.ids[i] in store && store[u.ids[i]] == u.pieces[i]
  }

  /** What is confirmed is stored, with the size it was confirmed with. */
  ghost predicate UploadOk(w: World, u: Upload) {
    && Pending(w.s, u)
    && forall i: nat :: i < |u.ids| && IsConfirmed(w.s, u, i) ==>
         Sent(w.store, u, i) && FileAt(w.s.root, u.path).value.blocks[i].size == |u.pieces[i]|
  }

  /** What the client of the upload, the only one to write its blocks, does: it confirms a
      block that it sent, and does not send it again afterwards. */
  ghost predicate ClientKeeps(w: World, e: Event, u: Upload)
    requires Pending(w.s, u)
  {
    match e
    case PutBlock(id, _) => forall i: nat :: i < |u.ids| && u.ids[i] == id ==> !IsConfirmed(w.s, u, i)
    case Command(op) =>
      op.ConfirmBlockOp? && Succeeds(w.s, op) && Target(op) == Ok(u.path) ==>
        forall i: nat :: i < |u.ids| && u.ids[i] == op.blockId ==> Sent(w.store, u, i) && op.size == |u.pieces[i]|
    case _ => true
  }

  /** The upload is dropped, taken over or completed. */
  ghost predicate Ends(s: State, op: Op, u: Upload) {
    Succeeds(s, op) && Target(op) == Ok(u.path) && (op.AbortUploadOp? || op.BeginUploadOp? || op.CompleteUploadOp?)
  }

  ghost predicate Continues(w: World, e: Event, u: Upload) {
    Pending(w.s, u) && Allowed(w, e) && ClientKeeps(w, e, u) && (e.Command? ==> !Ends(w.s, e.op, u))
  }

  // ----- One event -----

  /** On a pending file only a confirmation changes a block's size or marks it confirmed, and
      nothing moves its copies. */
  lemma {:induction false} PendingStep(s: State, op: Op, u: Upload)
    requires Pending(s, u) && !Ends(s, op, u)
    ensures Pending(Step(s, op).0, u)
    ensures var blocks, after := FileAt(s.root, u.path).value.blocks, FileAt(Step(s, op).0.root, u.path).value.blocks;
            && (forall i :: 0 <= i < |blocks| ==> after[i].addresses == blocks[i].addresses)
            && (!(op.ConfirmBlockOp? && Succeeds(s, op) && Target(op) == Ok(u.path)) ==>
                  forall i :: 0 <= i < |blocks| ==>
                    after[i].confirmed == blocks[i].confirmed && after[i].size == blocks[i].size)
  {
    StepFiles(s, op, u.path);
    if Succeeds(s, op) && Target(op) == Ok(u.path) {
      if op.CommitWriteOp? {
        CommitHoldsTheLock(s, op);
      } else if op.RemoveFileOp? {
        RemovalFindsFile(s, op);
      } else {
        PendingAfter(s, op, u);
      }
    }
  }

  lemma {:induction false} PendingAfter(s: State, op: Op, u: Upload)
    requires Pending(s, u) && Succeeds(s, op) && Target(op) == Ok(u.path) && !Ends(s, op, u)
    requires !op.CommitWriteOp? && !op.RemoveFileOp?
    ensures FileAfter(s, op).Some?
    ensures var file, after := FileAt(s.root, u.path).value, FileAfter(s, op).value;
            && !after.committed && after.blockSize == file.blockSize && |after.blocks| == |file.blocks|
            && (forall i :: 0 <= i < |file.blocks| ==>
                  after.blocks[i].id == file.blocks[i].id && after.blocks[i].addresses == file.blocks[i].addresses)
            && (!op.ConfirmBlockOp? ==> forall i :: 0 <= i < |file.blocks| ==>
                  after.blocks[i].confirmed == file.blocks[i].confirmed && after.blocks[i].size == file.blocks[i].size)
  {
  }

  lemma {:induction false} ConfirmedBy(s: State, op: Op, u: Upload, i: nat)
    requires Pending(s, u) && op.ConfirmBlockOp? && Succeeds(s, op) && Target(op) == Ok(u.path) && i < |u.ids|
    ensures Pending(Step(s, op).0, u)
    ensures var block, after := FileAt(s.root, u.path).value.blocks[i], FileAt(Step(s, op).0.root,
                                       u.path).value.blocks[i];
            if after == block then true else u.ids[i] == op.blockId && after.size == op.size
  {
    PendingStep(s, op, u);
    StepFiles(s, op, u.path);
    ConfirmFinds(s, op);
  }

  lemma {:induction false} ConfirmFinds(s: State, op: Op)
    requires op.ConfirmBlockOp? && Succeeds(s, op)
    ensures Target(op).Ok? && FileAt(s.root, Target(op).value).Some?
    ensures var blocks := FileAt(s.root, Target(op).value).value.blocks;
            IndexOfBlock(blocks, op.blockId) < |blocks|
  {
  }

  lemma {:induction false} CommandKeepsUpload(w: World, e: Event, u: Upload)
    requires WorldOk(w) && UploadOk(w, u) && Continues(w, e, u) && e.Command?
    ensures UploadOk(Next(w, e), u)
  {
    var s' := Step(w.s, e.op).0;
    PendingStep(w.s, e.op, u);
    forall i: nat | i < |u.ids| && IsConfirmed(s', u, i)
      ensures Sent(w.store, u, i) && FileAt(s'.root, u.path).value.blocks[i].size == |u.pieces[i]|
    {
      if e.op.ConfirmBlockOp? && Succeeds(w.s, e.op) && Target(e.op) == Ok(u.path) {
        ConfirmedBy(w.s, e.op, u, i);
      }
    }
  }

  /** Writes reserve files that are committed, and publish to them. */
  lemma {:induction false} WritesSpareUpload(w: World, e: Event, u: Upload)
    requires WorldOk(w) && UploadOk(w, u) && Allowed(w, e) && (e.Begin? || e.Commit?)
    ensures UploadOk(Next(w, e), u)
  {
    assert !Ends(w.s, e.op, u);
    PendingStep(w.s, e.op, u);
    SameUpload(w, Next(w, e), u);
  }

  lemma {:induction false} SameUpload(w: World, w': World, u: Upload)
    requires UploadOk(w, u) && Pending(w'.s, u)
    requires forall i: nat :: i < |u.ids| && Sent(w.store, u, i) && IsConfirmed(w.s, u, i) ==> Sent(w'.store, u, i)
    requires var blocks, after := FileAt(w.s.root, u.path).value.blocks, FileAt(w'.s.root, u.path).value.blocks;
             forall i :: 0 <= i < |blocks| ==>
               after[i].confirmed == blocks[i].confirmed && after[i].size == blocks[i].size
    ensures UploadOk(w', u)
  {
  }

  /** No block that a write sends is a block of the upload. */
  lemma {:induction false} NextSlotIsElsewhere(w: World, u: Upload, id: string, i: nat)
    requires WorldOk(w) && Pending(w.s, u) && i < |u.ids|
    requires id in w.intents && w.intents[id].written < |w.intents[id].slots|
    ensures NextSlot(w, id).newId != u.ids[i]
  {
    assert IntentOk(w, id) && Owned(w, id, w.intents[id].written, NextSlot(w, id).newId);
    assert IdAt(w.s, InFile(u.path, i)) == Some(u.ids[i]);
  }

  lemma {:induction false} StoringKeepsUpload(w: World, e: Event, u: Upload)
    requires WorldOk(w) && UploadOk(w, u) && Continues(w, e, u) && !e.Command? && !e.Begin? && !e.Commit?
    ensures UploadOk(Next(w, e), u)
  {
    forall i: nat | i < |u.ids| && Sent(w.store, u, i) && IsConfirmed(w.s, u, i) ensures Sent(Next(w, e).store, u, i) {
      assert IdAt(w.s, InFile(u.path, i)) == Some(u.ids[i]);
      if e.WriteNext? || e.GiveUp? {
        NextSlotIsElsewhere(w, u, e.writeId, i);
      }
    }
    SameUpload(w, Next(w, e), u);
  }

  lemma {:induction false} EventKeepsUpload(w: World, e: Event, u: Upload)
    requires WorldOk(w) && UploadOk(w, u) && Continues(w, e, u)
    ensures UploadOk(Next(w, e), u)
  {
    if e.Command? {
      CommandKeepsUpload(w, e, u);
    } else if e.Begin? || e.Commit? {
      WritesSpareUpload(w, e, u);
    } else {
      StoringKeepsUpload(w, e, u);
    }
  }

  // ----- From begin to completion -----

  /** What a client plans to send under the placements of its upload. */
  ghost predicate Plans(u: Upload, op: Op, data: seq<Byte>) {
    && op.BeginUploadOp? && Target(op) == Ok(u.path) && op.blockSize == u.blockSize
    && IsChunking(u.pieces, data, u.blockSize) && |u.pieces| == |u.ids| == |op.placements|
    && forall i :: 0 <= i < |u.ids| ==> u.ids[i] == op.placements[i].id
  }

  lemma {:induction false} BegunUpload(w: World, op: Op, u: Upload, data: seq<Byte>)
    requires Allowed(w, Command(op)) && Succeeds(w.s, op) && Plans(u, op, data)
    ensures UploadOk(Next(w, Command(op)), u)
  {
    StepFiles(w.s, op, u.path);
  }

  lemma {:induction false} CompletionConfirmed(s: State, op: Op)
    requires op.CompleteUploadOp? && Succeeds(s, op)
    ensures Target(op).Ok? && FileAt(s.root, Target(op).value).Some?
    ensures forall i :: 0 <= i < |FileAt(s.root, Target(op).value).value.blocks| ==>
              FileAt(s.root, Target(op).value).value.blocks[i].confirmed
    ensures FileAfter(s, op) == Some(FileAt(s.root, Target(op).value).value.(committed := true))
  {
  }

  /** A file just completed has no lock, so nothing that was reserved on an earlier file of the
      same name can be published on it. */
  lemma {:induction false} NoWriteOnCompleted(s: State, op: Op, id: string)
    requires LocksOk(s) && op.CompleteUploadOp? && Succeeds(s, op)
    ensures Target(op).Ok? && !Viable(Step(s, op).0, Target(op).value, id)
  {
    UploadCommandsSpareCommitted(s, op);
    StepLocks(s, op, Target(op).value);
  }

  /** A completed upload holds the data that its client sent. */
  lemma {:induction false} CompletedUpload(w: World, op: Op, u: Upload, data: seq<Byte>)
    requires WorldOk(w) && UploadOk(w, u) && Allowed(w, Command(op))
    requires op.CompleteUploadOp? && Succeeds(w.s, op) && Target(op) == Ok(u.path)
    requires IsChunking(u.pieces, data, u.blockSize)
    ensures Inv(Next(w, Command(op)), u.path, data)
  {
    var w' := Next(w, Command(op));
    CommandKeepsWorld(w, op);
    StepFiles(w.s, op, u.path);
    CompletionConfirmed(w.s, op);
    forall id ensures !Viable(w'.s, u.path, id) {
      NoWriteOnCompleted(w.s, op, id);
    }
    var blocks := CommittedFile(w'.s.root, u.path).value.blocks;
    assert Pieces(blocks, w'.store) == u.pieces;
  }

  /** The run of an upload: nothing ends it before it is completed. */
  ghost predicate UploadRun(w: World, events: seq<Event>, u: Upload)
    decreases |events|
  {
    events == [] || (Continues(w, events[0], u) && UploadRun(Next(w, events[0]), events[1..], u))
  }

  ghost function UploadEnd(w: World, events: seq<Event>, u: Upload): World
    requires UploadRun(w, events, u)
    decreases |events|
  {
    if events == [] then w else UploadEnd(Next(w, events[0]), events[1..], u)
  }

  lemma {:induction false} UploadOkRun(w: World, events: seq<Event>, u: Upload)
    requires WorldOk(w) && UploadOk(w, u) && UploadRun(w, events, u)
    ensures WorldOk(UploadEnd(w, events, u)) && UploadOk(UploadEnd(w, events, u), u)
    decreases |events|
  {
    if events != [] {
      EventKeepsWorld(w, events[0]);
      EventKeepsUpload(w, events[0], u);
      UploadOkRun(Next(w, events[0]), events[1..], u);
    }
  }

  /** The whole life of a file: what the client sent from BeginUpload to CompleteUpload, then
      the splices of the writes that commit, in any interleaving with everything else. */
  lemma {:induction false} UploadThenWrites(w: World, begin: Op, during: seq<Event>, complete: Op, after: seq<Event>,
        u: Upload, data: seq<Byte>)
    requires WorldOk(w) && Allowed(w, Command(begin)) && Succeeds(w.s, begin) && Plans(u, begin, data)
    requires UploadRun(Next(w, Command(begin)), during, u)
    requires var w1 := UploadEnd(Next(w, Command(begin)), during, u);
             && Allowed(w1, Command(complete)) && complete.CompleteUploadOp? && Succeeds(w1.s, complete)
             && Target(complete) == Ok(u.path) && AllowedRun(Next(w1, Command(complete)), after, u.path)
    ensures var w2 := Next(UploadEnd(Next(w, Command(begin)), during, u), Command(complete));
            var end := End(w2, after, u.path);
            && Inv(w2, u.path, data) && CommittedFile(end.s.root, u.path).Ok?
            && Flatten(Pieces(CommittedFile(end.s.root, u.path).value.blocks, end.store))
               == Splices(w2, after, u.path, data)
  {
    EventKeepsWorld(w, Command(begin));
    BegunUpload(w, begin, u, data);
    UploadOkRun(Next(w, Command(begin)), during, u);
    var w1 := UploadEnd(Next(w, Command(begin)), during, u);
    CompletedUpload(w1, complete, u, data);
    ContentIsTheCommittedSplices(Next(w1, Command(complete)), after, u.path, data);
  }
}
