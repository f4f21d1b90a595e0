/** Uploads over the nodes: what the client confirmed is on every node that the metadata names
    for it, with the bytes sent, so the content of the file on the nodes starts from there. */
module NodeUploads {
  import opened Common
  import opened Chunking
  import opened Tree
  import opened Mutations
  import opened Effects
  import opened Conservation
  import opened Walks
  import opened Copies
  import opened Uploads
  import opened Cluster
  import G = Collector
  import P = WriteProtocol

  /** Every copy of the block has its bytes, and each that the metadata names is there, or is
      missing though it was. */
  ghost predicate CopiesHold(x: System, u: Upload, i: nat)
    requires Pending(x.y.s, u) && i < |u.ids|
  {
    && (forall c :: c in x.bytes && c.id == u.ids[i] ==> x.bytes[c] == u.pieces[i])
    && forall a :: a in FileAt(x.y.s.root, u.path).value.blocks[i].addresses ==>
         Copy(u.ids[i], a) in x.bytes.Keys + Missing(x)
  }

  ghost predicate NodesHold(x: System, u: Upload) {
    Pending(x.y.s, u) && forall i: nat :: i < |u.ids| && IsConfirmed(x.y.s, u, i) ==> CopiesHold(x, u, i)
  }

  /** The client confirms a block when its chain answered with success, which means that every
      node of the chain has it. */
  ghost predicate ConfirmsWhatIsThere(x: System, e: Event, u: Upload)
    requires Pending(x.y.s, u)
  {
    e.Command? && e.op.ConfirmBlockOp? && Succeeds(x.y.s, e.op) && Target(e.op) == Ok(u.path) ==>
      forall i: nat :: i < |u.ids| && u.ids[i] == e.op.blockId ==> CopiesHold(x, u, i)
  }

  /** The upload goes on, whatever else happens. */
  ghost predicate GoesOn(b: G.Bounds, x: System, e: Event, u: Upload) {
    && Allowed(b, x, e) && Pending(x.y.s, u) && ConfirmsWhatIsThere(x, e, u)
    && (ForClients(b, x, e).Some? ==> Continues(View(b, x), ForClients(b, x, e).value, u))
  }

  ghost predicate InProgressOk(b: G.Bounds, x: System, u: Upload) {
    SystemOk(b, x) && UploadOk(View(b, x), u) && NodesHold(x, u)
  }

  // ----- One event -----

  lemma {:induction false} ViewKeepsUpload(b: G.Bounds, x: System, e: Event, u: Upload)
    requires InProgressOk(b, x, u) && GoesOn(b, x, e, u)
    ensures UploadOk(ViewAfter(b, x, e), u)
  {
    if ForClients(b, x, e).Some? {
      EventKeepsUpload(View(b, x), ForClients(b, x, e).value, u);
    }
  }

  /** What reaches a node under the id of a confirmed block is the block. */
  lemma {:induction false} StoresTheBlock(b: G.Bounds, x: System, e: Event, u: Upload, i: nat, c: Copy)
    requires InProgressOk(b, x, u) && GoesOn(b, x, e, u) && i < |u.ids| && IsConfirmed(x.y.s, u, i)
    requires c in Stores(b, x, e) && c.id == u.ids[i]
    ensures Stores(b, x, e)[c] == u.pieces[i]
  {
    assert CopiesHold(x, u, i);
    if e.Write? || e.GiveUp? {
      NextSlotIsElsewhere(View(b, x), u, e.writeId, i);
    }
  }

  lemma {:induction false} NamedStays(b: G.Bounds, x: System, e: Event, u: Upload, i: nat, a: string)
    requires Pending(x.y.s, u) && i < |u.ids| && Copy(u.ids[i], a) in x.bytes.Keys + Missing(x)
    ensures Copy(u.ids[i], a) in HeldAfter(b, x, e)
  {
    HeldChanges(b, x, e);
    assert IdAt(x.y.s, InFile(u.path, i)) == Some(u.ids[i]);
  }

  ghost predicate SameAddresses(s: State, s': State, u: Upload, i: nat)
    requires Pending(s, u) && Pending(s', u) && i < |u.ids|
  {
    FileAt(s'.root, u.path).value.blocks[i].addresses == FileAt(s.root, u.path).value.blocks[i].addresses
  }

  lemma {:induction false} StillHold(b: G.Bounds, x: System, e: Event, u: Upload, i: nat)
    requires Allowed(b, x, e) && Pending(x.y.s, u) && Pending(Next(b, x, e).y.s, u)
    requires i < |u.ids| && CopiesHold(x, u, i) && SameAddresses(x.y.s, Next(b, x, e).y.s, u, i)
    requires forall c :: c in Stores(b, x, e) && c.id == u.ids[i] ==> Stores(b, x, e)[c] == u.pieces[i]
    ensures CopiesHold(Next(b, x, e), u, i)
  {
    forall a | a in FileAt(x.y.s.root, u.path).value.blocks[i].addresses
      ensures Copy(u.ids[i], a) in HeldAfter(b, x, e)
    {
      NamedStays(b, x, e, u, i, a);
    }
  }

  /** A block confirmed after a command was confirmed before, or is confirmed by it. */
  lemma {:induction false} ConfirmedThen(s: State, op: Op, u: Upload, i: nat)
    requires Pending(s, u) && !Ends(s, op, u) && i < |u.ids|
    ensures Pending(Step(s, op).0, u) && SameAddresses(s, Step(s, op).0, u, i)
    ensures IsConfirmed(Step(s, op).0, u, i) && !IsConfirmed(s, u, i) ==>
              op.ConfirmBlockOp? && Succeeds(s, op) && Target(op) == Ok(u.path) && u.ids[i] == op.blockId
  {
    PendingStep(s, op, u);
    if op.ConfirmBlockOp? && Succeeds(s, op) && Target(op) == Ok(u.path) {
      ConfirmedBy(s, op, u, i);
    }
  }

  lemma {:induction false} CommandKeepsCopies(b: G.Bounds, x: System, e: Event, u: Upload, i: nat)
    requires InProgressOk(b, x, u) && GoesOn(b, x, e, u) && (e.Command? || e.Begin? || e.Commit?)
    requires i < |u.ids| && Pending(Next(b, x, e).y.s, u) && IsConfirmed(Next(b, x, e).y.s, u, i)
    ensures CopiesHold(Next(b, x, e), u, i)
  {
    ConfirmedThen(x.y.s, e.op, u, i);
    assert CopiesHold(x, u, i);
    StillHold(b, x, e, u, i);
  }

  lemma {:induction false} RestKeepsCopies(b: G.Bounds, x: System, e: Event, u: Upload, i: nat)
    requires InProgressOk(b, x, u) && GoesOn(b, x, e, u) && !e.Command? && !e.Begin? && !e.Commit?
    requires i < |u.ids| && Pending(Next(b, x, e).y.s, u) && IsConfirmed(Next(b, x, e).y.s, u, i)
    ensures CopiesHold(Next(b, x, e), u, i)
  {
    assert Next(b, x, e).y.s == x.y.s && CopiesHold(x, u, i);
    forall c | c in Stores(b, x, e) && c.id == u.ids[i] ensures Stores(b, x, e)[c] == u.pieces[i] {
      StoresTheBlock(b, x, e, u, i, c);
    }
    StillHold(b, x, e, u, i);
  }

  /** No event takes from the nodes what the upload confirmed. */
  lemma {:induction false} EventKeepsUploadOnNodes(b: G.Bounds, x: System, e: Event, u: Upload)
    requires InProgressOk(b, x, u) && GoesOn(b, x, e, u)
    ensures InProgressOk(b, Next(b, x, e), u)
  {
    ViewOfNext(b, x, e);
    EventKeepsSystem(b, x, e);
    ViewKeepsUpload(b, x, e, u);
    var x' := Next(b, x, e);
    forall i: nat | i < |u.ids| && IsConfirmed(x'.y.s, u, i) ensures CopiesHold(x', u, i) {
      if e.Command? || e.Begin? || e.Commit? {
        CommandKeepsCopies(b, x, e, u, i);
      } else {
        RestKeepsCopies(b, x, e, u, i);
      }
    }
  }

  // ----- From begin to completion -----

  lemma {:induction false} BegunOnNodes(b: G.Bounds, x: System, op: Op, u: Upload, data: seq<Byte>)
    requires SystemOk(b, x) && Allowed(b, x, Command(op)) && Succeeds(x.y.s, op) && Plans(u, op, data)
    ensures InProgressOk(b, Next(b, x, Command(op)), u)
  {
    ViewOfNext(b, x, Command(op));
    EventKeepsSystem(b, x, Command(op));
    BegunUpload(View(b, x), op, u, data);
    NothingConfirmed(x.y.s, op, u, data);
  }

  lemma {:induction false} NothingConfirmed(s: State, op: Op, u: Upload, data: seq<Byte>)
    requires Succeeds(s, op) && Plans(u, op, data)
    ensures Pending(Step(s, op).0, u) && forall i: nat :: i < |u.ids| ==> !IsConfirmed(Step(s, op).0, u, i)
  {
    StepFiles(s, op, u.path);
  }

  /** The blocks of the file just completed are where it is said, as sent. */
  lemma {:induction false} CompletedCopies(x: System, x': System, u: Upload, c: Copy, i: nat)
    requires Pending(x.y.s, u) && NodesHold(x, u) && i < |u.ids| && IsConfirmed(x.y.s, u, i)
    requires CommittedFile(x'.y.s.root, u.path).Ok? && x'.bytes == x.bytes && Missing(x') == Missing(x)
    requires CommittedFile(x'.y.s.root, u.path).value.blocks == FileAt(x.y.s.root, u.path).value.blocks
    requires c.id == u.ids[i]
    ensures c in x'.bytes ==> x'.bytes[c] == u.pieces[i]
    ensures NamedAt(x'.y.s.root, u.path, i, c.id, c.address) ==> c in x'.bytes.Keys + Missing(x')
  {
    assert CopiesHold(x, u, i) && c == Copy(u.ids[i], c.address);
  }

  /** A completed upload is the content of the file on the nodes. */
  lemma {:induction false} CompletedOnNodes(b: G.Bounds, x: System, op: Op, u: Upload, data: seq<Byte>)
    requires InProgressOk(b, x, u) && Allowed(b, x, Command(op))
    requires op.CompleteUploadOp? && Succeeds(x.y.s, op) && Target(op) == Ok(u.path)
    requires IsChunking(u.pieces, data, u.blockSize)
    ensures Inv(b, Next(b, x, Command(op)), u.path, data)
  {
    var x' := Next(b, x, Command(op));
    EventKeepsSystem(b, x, Command(op));
    CompletedView(b, x, op, u, data);
    CompletedBlocks(x.y.s, op, u);
    SameNodes(b, x, op);
    CompletedIsStored(b, x, x', u, data);
  }

  lemma {:induction false} CompletedView(b: G.Bounds, x: System, op: Op, u: Upload, data: seq<Byte>)
    requires InProgressOk(b, x, u) && Allowed(b, x, Command(op))
    requires op.CompleteUploadOp? && Succeeds(x.y.s, op) && Target(op) == Ok(u.path)
    requires IsChunking(u.pieces, data, u.blockSize)
    ensures Next(b, x, Command(op)).y.s == Step(x.y.s, op).0
    ensures P.Inv(View(b, Next(b, x, Command(op))), u.path, data)
    ensures forall id :: !P.Viable(Next(b, x, Command(op)).y.s, u.path, id)
  {
    ViewOfNext(b, x, Command(op));
    CompletedUpload(View(b, x), op, u, data);
    forall id ensures !P.Viable(Step(x.y.s, op).0, u.path, id) {
      NoWriteOnCompleted(x.y.s, op, id);
    }
  }

  lemma {:induction false} CompletedIsStored(b: G.Bounds, x: System, x': System, u: Upload, data: seq<Byte>)
    requires InProgressOk(b, x, u) && forall i: nat :: i < |u.ids| ==> IsConfirmed(x.y.s, u, i)
    requires SystemOk(b, x') && P.Inv(View(b, x'), u.path, data) && forall id :: !P.Viable(x'.y.s, u.path, id)
    requires x'.bytes == x.bytes && Missing(x') == Missing(x) && x'.store == x.store
    requires CommittedFile(x'.y.s.root, u.path).Ok?
    requires CommittedFile(x'.y.s.root, u.path).value.blocks == FileAt(x.y.s.root, u.path).value.blocks
    ensures Inv(b, x', u.path, data)
  {
    forall c: Copy | NamedIn(x'.y.s, u.path, c.id, c.address) ensures c in x'.bytes.Keys + Missing(x') {
      var i: nat :| NamedAt(x'.y.s.root, u.path, i, c.id, c.address);
      CompletedCopies(x, x', u, c, i);
    }
    forall c, i: nat | c in x'.bytes && i < |u.ids| && c.id == u.ids[i]
      ensures c.id in x'.store && x'.bytes[c] == x'.store[c.id]
    {
      CompletedCopies(x, x', u, c, i);
      assert Sent(View(b, x).store, u, i);
    }
    StoredFileStarts(b, x', u.path, data);
  }

  lemma {:induction false} CompletedBlocks(s: State, op: Op, u: Upload)
    requires Pending(s, u) && op.CompleteUploadOp? && Succeeds(s, op) && Target(op) == Ok(u.path)
    ensures CommittedFile(Step(s, op).0.root, u.path).Ok?
    ensures CommittedFile(Step(s, op).0.root, u.path).value.blocks == FileAt(s.root, u.path).value.blocks
    ensures forall i: nat :: i < |u.ids| ==> IsConfirmed(s, u, i)
  {
    StepFiles(s, op, u.path);
    CompletionConfirmed(s, op);
  }

  lemma {:induction false} SameNodes(b: G.Bounds, x: System, op: Op)
    requires Allowed(b, x, Command(op))
    ensures Next(b, x, Command(op)).bytes == x.bytes && Missing(Next(b, x, Command(op))) == Missing(x)
    ensures Next(b, x, Command(op)).store == x.store
  {
    NodesAfter(b, x, Command(op));
  }

  // ----- Whole runs -----

  ghost predicate UploadingRun(b: G.Bounds, x: System, events: seq<Event>, u: Upload)
    decreases |events|
  {
    events == [] || (GoesOn(b, x, events[0], u) && UploadingRun(b, Next(b, x, events[0]), events[1..], u))
  }

  ghost function UploadingEnd(b: G.Bounds, x: System, events: seq<Event>, u: Upload): System
    requires UploadingRun(b, x, events, u)
    decreases |events|
  {
    if events == [] then x else UploadingEnd(b, Next(b, x, events[0]), events[1..], u)
  }

  lemma {:induction false} UploadingRunIsOk(b: G.Bounds, x: System, events: seq<Event>, u: Upload)
    requires InProgressOk(b, x, u) && UploadingRun(b, x, events, u)
    ensures InProgressOk(b, UploadingEnd(b, x, events, u), u)
    decreases |events|
  {
    if events != [] {
      EventKeepsUploadOnNodes(b, x, events[0], u);
      UploadingRunIsOk(b, Next(b, x, events[0]), events[1..], u);
    }
  }

  /** From BeginUpload to CompleteUpload, in any interleaving: the file is on the nodes. */
  lemma {:induction false} UploadReachesTheNodes(b: G.Bounds, x: System, begin: Op, during: seq<Event>, complete: Op,
        u: Upload, data: seq<Byte>)
    requires SystemOk(b, x) && Allowed(b, x, Command(begin)) && Succeeds(x.y.s, begin) && Plans(u, begin, data)
    requires UploadingRun(b, Next(b, x, Command(begin)), during, u)
    requires var x1 := UploadingEnd(b, Next(b, x, Command(begin)), during, u);
             && Allowed(b, x1, Command(complete)) && complete.CompleteUploadOp? && Succeeds(x1.y.s, complete)
             && Target(complete) == Ok(u.path)
    ensures Inv(b, Next(b, UploadingEnd(b, Next(b, x, Command(begin)), during, u), Command(complete)), u.path, data)
  {
    BegunOnNodes(b, x, begin, u, data);
    UploadingRunIsOk(b, Next(b, x, Command(begin)), during, u);
    CompletedOnNodes(b, UploadingEnd(b, Next(b, x, Command(begin)), during, u), complete, u, data);
  }

  /** The whole life of a file on the nodes: from whichever of them its blocks are read, it is
      what the client sent with the committed splices over it. */
  lemma {:induction false} UploadedContentOnNodes(b: G.Bounds, x: System, begin: Op, during: seq<Event>, complete: Op,
        after: seq<Event>, u: Upload, data: seq<Byte>, picks: seq<Copy>)
    requires SystemOk(b, x) && Allowed(b, x, Command(begin)) && Succeeds(x.y.s, begin) && Plans(u, begin, data)
    requires UploadingRun(b, Next(b, x, Command(begin)), during, u)
    requires var x1 := UploadingEnd(b, Next(b, x, Command(begin)), during, u);
             && Allowed(b, x1, Command(complete)) && complete.CompleteUploadOp? && Succeeds(x1.y.s, complete)
             && Target(complete) == Ok(u.path) && AllowedRun(b, Next(b, x1, Command(complete)), after, u.path)
    ensures var x2 := Next(b, UploadingEnd(b, Next(b, x, Command(begin)), during, u), Command(complete));
            var end := End(b, x2, after, u.path);
            && CommittedFile(end.y.s.root, u.path).Ok?
            && (Picks(CommittedFile(end.y.s.root, u.path).value.blocks, end.bytes, picks) ==>
                  Flatten(Read(end.bytes, picks)) == Splices(b, x2, after, u.path, data))
  {
    UploadReachesTheNodes(b, x, begin, during, complete, u, data);
    var x2 := Next(b, UploadingEnd(b, Next(b, x, Command(begin)), during, u), Command(complete));
    EveryReplicaHoldsTheContent(b, x2, after, u.path, data);
  }
}
