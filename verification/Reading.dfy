/** Reading under a lock, with every node at work: while its lock stays in the table a reader
    gets, from any copies and at any moments, the content as it was when the blocks were
    listed. So a download is that content, and a range read is its slice, whatever the
    interleaving. */
module Reading {
  import opened Common
  import opened Chunking
  import opened Paths
  import opened Tree
  import opened Mutations
  import opened Effects
  import opened History
  import opened Locking
  import opened Conservation
  import opened FileContent
  import opened Copies
  import opened Cluster
  import D = Download
  import G = Collector
  import P = WriteProtocol
  import R = RangeRead

  // ----- The file under the lock -----

  /** The command that the event applies, if any. */
  predicate Applies(e: Event) {
    e.Command? || e.Begin? || e.Commit?
  }

  /** The reader itself publishes nothing through its lock. */
  ghost predicate OnlyReads(s: State, e: Event, p: Path, l: string) {
    Applies(e) ==> !CommitsThrough(s, e.op, p, l)
  }

  /** The same data of the same file. */
  ghost predicate SameFile(s: State, s': State, p: Path) {
    && CommittedFile(s.root, p).Ok? && CommittedFile(s'.root, p).Ok?
    && SameData(CommittedFile(s.root, p).value, CommittedFile(s'.root, p).value)
  }

  lemma {:induction false} SameFileOnwards(s: State, s': State, s'': State, p: Path)
    requires SameFile(s, s', p) && SameFile(s', s'', p)
    ensures SameFile(s, s'', p)
  {
  }

  lemma {:induction false} MetadataAfter(b: G.Bounds, x: System, e: Event)
    requires Allowed(b, x, e)
    ensures Next(b, x, e).y.s == if Applies(e) then Step(x.y.s, e.op).0 else x.y.s
    ensures Applies(e) ==> FreshOp(x.y.used, e.op)
    ensures x.y.used <= Next(b, x, e).y.used
  {
  }

  lemma {:induction false} ReaderHasAFile(s: State, p: Path, l: string)
    requires LocksOk(s) && l in HoldersAt(s, p)
    ensures SameFile(s, s, p)
  {
    assert LockOk(s, p);
  }

  /** An event after which the lock is still in the table found it there, and left the file. */
  lemma {:induction false} EventSparesReader(b: G.Bounds, x: System, e: Event, p: Path, content: seq<Byte>, l: string)
    requires SystemOk(b, x) && Allowed(b, x, e) && l in x.y.used
    requires l in HoldersAt(Next(b, x, e).y.s, p) && OnlyReads(x.y.s, e, p, l)
    ensures l in HoldersAt(x.y.s, p) && ContentAfter(b, x, e, p, content) == content
    ensures SameFile(x.y.s, Next(b, x, e).y.s, p)
    ensures Next(b, x, e).y.s.locks[p].mode == x.y.s.locks[p].mode
  {
    MetadataAfter(b, x, e);
    if Applies(e) {
      CommandSparesReader(x.y.s, x.y.used, e.op, p, l);
    } else {
      ReaderHasAFile(x.y.s, p, l);
    }
  }

  lemma {:induction false} CommandSparesReader(s: State, used: set<string>, op: Op, p: Path, l: string)
    requires LocksOk(s) && FreshOp(used, op) && l in used && l in HoldersAt(Step(s, op).0, p)
    requires !CommitsThrough(s, op, p, l)
    ensures l in HoldersAt(s, p) && SameFile(s, Step(s, op).0, p)
    ensures Step(s, op).0.locks[p].mode == s.locks[p].mode
    ensures !(op.CommitWriteOp? && Succeeds(s, op) && Target(op) == Ok(p))
  {
    FreshOpIntroducesNothingUsed(used, op, l);
    HolderStep(s, op, p, l);
    if op.CommitWriteOp? && Succeeds(s, op) && Target(op) == Ok(p) {
      P.PublishedFile(s, op, p);
    }
  }

  ghost predicate OnlyReadsRun(b: G.Bounds, x: System, events: seq<Event>, p: Path, l: string)
    requires AllowedRun(b, x, events, p)
    decreases |events|
  {
    events == []
    || (OnlyReads(x.y.s, events[0], p, l) && OnlyReadsRun(b, Next(b, x, events[0]), events[1..], p, l))
  }

  /** `y` is a moment of the run. */
  ghost predicate Moment(b: G.Bounds, x: System, events: seq<Event>, p: Path, y: System)
    requires AllowedRun(b, x, events, p)
    decreases |events|
  {
    y == x || (events != [] && Moment(b, Next(b, x, events[0]), events[1..], p, y))
  }

  /** The lock is in the table when the blocks are listed, and still is when all is read. */
  ghost predicate Holds(b: G.Bounds, x: System, events: seq<Event>, p: Path, l: string)
    requires AllowedRun(b, x, events, p)
  {
    l in HoldersAt(x.y.s, p) && l in HoldersAt(End(b, x, events, p).y.s, p) && OnlyReadsRun(b, x, events, p, l)
  }

  lemma {:induction false} HeldAllAlong(b: G.Bounds, x: System, events: seq<Event>, p: Path, l: string)
    requires SystemOk(b, x) && AllowedRun(b, x, events, p) && l in x.y.used
    requires l in HoldersAt(End(b, x, events, p).y.s, p) && OnlyReadsRun(b, x, events, p, l)
    ensures l in HoldersAt(x.y.s, p)
    decreases |events|
  {
    if events != [] {
      EventKeepsSystem(b, x, events[0]);
      MetadataAfter(b, x, events[0]);
      HeldAllAlong(b, Next(b, x, events[0]), events[1..], p, l);
      EventSparesReader(b, x, events[0], p, [], l);
    }
  }

  /** A shared holder commits nothing: it is enough that it is there at the end. */
  lemma {:induction false} SharedHolderHolds(b: G.Bounds, x: System, events: seq<Event>, p: Path, l: string)
    requires SystemOk(b, x) && AllowedRun(b, x, events, p) && l in x.y.used
    requires l in HoldersAt(End(b, x, events, p).y.s, p) && End(b, x, events, p).y.s.locks[p].mode.Shared?
    ensures Holds(b, x, events, p, l) && x.y.s.locks[p].mode.Shared?
    decreases |events|
  {
    if events != [] {
      EventKeepsSystem(b, x, events[0]);
      MetadataAfter(b, x, events[0]);
      SharedHolderHolds(b, Next(b, x, events[0]), events[1..], p, l);
      if Applies(events[0]) {
        SharedHolderOnlyReads(x.y.s, events[0].op, p, l);
      }
      EventSparesReader(b, x, events[0], p, [], l);
    }
  }

  lemma {:induction false} SharedHolderOnlyReads(s: State, op: Op, p: Path, l: string)
    requires l in HoldersAt(Step(s, op).0, p) && Step(s, op).0.locks[p].mode.Shared?
    ensures !CommitsThrough(s, op, p, l)
  {
    if CommitsThrough(s, op, p, l) {
      CommitHoldsTheLock(s, op);
    }
  }

  lemma {:induction false} FirstUnderLock(b: G.Bounds, x: System, events: seq<Event>, p: Path, content: seq<Byte>,
        l: string)
    requires Inv(b, x, p, content) && AllowedRun(b, x, events, p) && events != []
    requires l in x.y.used && l in HoldersAt(End(b, x, events, p).y.s, p) && OnlyReadsRun(b, x, events, p, l)
    ensures Inv(b, Next(b, x, events[0]), p, content) && l in Next(b, x, events[0]).y.used
    ensures SameFile(x.y.s, Next(b, x, events[0]).y.s, p)
  {
    EventKeepsSystem(b, x, events[0]);
    MetadataAfter(b, x, events[0]);
    HeldAllAlong(b, Next(b, x, events[0]), events[1..], p, l);
    StepUnderLock(b, x, events[0], p, content, l);
  }

  lemma {:induction false} StepUnderLock(b: G.Bounds, x: System, e: Event, p: Path, content: seq<Byte>, l: string)
    requires Inv(b, x, p, content) && Happens(b, x, e, p) && l in x.y.used
    requires l in HoldersAt(Next(b, x, e).y.s, p) && OnlyReads(x.y.s, e, p, l)
    ensures Inv(b, Next(b, x, e), p, content) && l in Next(b, x, e).y.used
    ensures SameFile(x.y.s, Next(b, x, e).y.s, p)
  {
    EventKeepsInv(b, x, e, p, content);
    MetadataAfter(b, x, e);
    EventSparesReader(b, x, e, p, content, l);
  }

  /** Then the content is the same at every moment, and the blocks are those listed. */
  lemma {:induction false} ContentUnderLock(b: G.Bounds, x: System, events: seq<Event>, p: Path, content: seq<Byte>,
        l: string, y: System)
    requires Inv(b, x, p, content) && AllowedRun(b, x, events, p) && Moment(b, x, events, p, y)
    requires l in x.y.used && l in HoldersAt(End(b, x, events, p).y.s, p) && OnlyReadsRun(b, x, events, p, l)
    ensures Inv(b, y, p, content) && SameFile(x.y.s, y.y.s, p)
    decreases |events|
  {
    if y == x {
      HeldAllAlong(b, x, events, p, l);
      ReaderHasAFile(x.y.s, p, l);
    } else {
      FirstUnderLock(b, x, events, p, content, l);
      var x' := Next(b, x, events[0]);
      ContentUnderLock(b, x', events[1..], p, content, l, y);
      SameFileOnwards(x.y.s, x'.y.s, y.y.s, p);
    }
  }

  // ----- What the nodes answer -----

  /** What a node sent of block `i` of the list: a prefix of what its copy had at some moment. */
  ghost predicate Answered(b: G.Bounds, x: System, events: seq<Event>, p: Path, block: BlockRecord, sent: seq<Byte>)
    requires AllowedRun(b, x, events, p)
  {
    exists y, c :: Moment(b, x, events, p, y) && c in y.bytes && c.id == block.id && sent <= y.bytes[c]
  }

  lemma {:induction false} CopyIsItsBlock(b: G.Bounds, y: System, p: Path, content: seq<Byte>, c: Copy, i: nat)
    requires P.Inv(View(b, y), p, content) && Faithful(View(b, y), p, y.bytes) && c in y.bytes
    requires i < |CommittedFile(y.y.s.root, p).value.blocks|
    requires c.id == CommittedFile(y.y.s.root, p).value.blocks[i].id
    ensures var file := CommittedFile(y.y.s.root, p).value;
            |y.bytes[c]| == file.blocks[i].size && IsChunk(y.bytes[c], content, file.blockSize, i)
  {
    var w, file := View(b, y), CommittedFile(y.y.s.root, p).value;
    assert P.Protected(w, p, InFile(p, i)) && IdAt(w.s, InFile(p, i)) == Some(c.id);
    assert IsChunk(P.Pieces(file.blocks, y.store)[i], content, file.blockSize, i);
  }

  /** An answer of the size listed is the block of the content. */
  lemma {:induction false} AnswerIsTheBlock(b: G.Bounds, x: System, events: seq<Event>, p: Path, content: seq<Byte>,
        l: string, i: nat, sent: seq<Byte>)
    requires Inv(b, x, p, content) && AllowedRun(b, x, events, p) && Holds(b, x, events, p, l)
    requires i < |CommittedFile(x.y.s.root, p).value.blocks|
    requires var block := CommittedFile(x.y.s.root, p).value.blocks[i];
             |sent| == block.size && Answered(b, x, events, p, block, sent)
    ensures IsChunk(sent, content, CommittedFile(x.y.s.root, p).value.blockSize, i)
  {
    var block := CommittedFile(x.y.s.root, p).value.blocks[i];
    var y, c :| Moment(b, x, events, p, y) && c in y.bytes && c.id == block.id && sent <= y.bytes[c];
    ContentUnderLock(b, x, events, p, content, l, y);
    CopyIsItsBlock(b, y, p, content, c, i);
  }

  /** The blocks listed cut the content. */
  lemma {:induction false} ListedBlocks(b: G.Bounds, x: System, p: Path, content: seq<Byte>)
    requires Inv(b, x, p, content)
    ensures var file := CommittedFile(x.y.s.root, p).value;
            && IsChunking(P.Pieces(file.blocks, x.store), content, file.blockSize)
            && Flatten(P.Pieces(file.blocks, x.store)) == content
            && forall i :: 0 <= i < |file.blocks| ==> |P.Pieces(file.blocks, x.store)[i]| == file.blocks[i].size
  {
    var file := CommittedFile(x.y.s.root, p).value;
    P.SizesOfPieces(file.blocks, x.store, content, file.blockSize);
  }

  // ----- Downloads -----

  /** The sizes that a download takes from the list. */
  ghost predicate ListedSizes(sizes: seq<nat>, blocks: seq<BlockRecord>) {
    |sizes| == |blocks| && forall i :: 0 <= i < |sizes| ==> sizes[i] == blocks[i].size
  }

  /** A download under a lock: if every thread ends well, the file written is the committed
      content, whichever copies answered, at whatever moments, and whoever failed before. */
  lemma {:induction false} DownloadUnderLock(b: G.Bounds, x: System, events: seq<Event>, p: Path, content: seq<Byte>,
        l: string, sizes: seq<nat>, turns: seq<D.Turn>)
    requires Inv(b, x, p, content) && AllowedRun(b, x, events, p) && Holds(b, x, events, p, l)
    requires ListedSizes(sizes, CommittedFile(x.y.s.root, p).value.blocks) && D.ProperTurns(sizes, turns)
    requires |D.After(sizes, turns).threads| == |sizes|
    requires forall i :: 0 <= i < |sizes| ==> D.After(sizes, turns).threads[i].Done?
    requires forall i :: 0 <= i < |sizes| ==>
               Answered(b, x, events, p, CommittedFile(x.y.s.root, p).value.blocks[i], D.SentLately(turns, i))
    ensures D.After(sizes, turns).file == content
  {
    var file, pieces := CommittedFile(x.y.s.root, p).value, D.Streams(turns, |sizes|);
    D.DownloadIsTheConcatenation(sizes, turns);
    ListedBlocks(b, x, p, content);
    forall i | 0 <= i < |pieces| ensures IsChunk(pieces[i], content, file.blockSize, i) {
      DoneIsWhole(sizes, turns, i);
      AnswerIsTheBlock(b, x, events, p, content, l, i, pieces[i]);
    }
    FlattenChunking(pieces, content, file.blockSize, |pieces|);
  }

  lemma {:induction false} DoneIsWhole(sizes: seq<nat>, turns: seq<D.Turn>, i: nat)
    requires D.ProperTurns(sizes, turns) && i < |sizes| == |D.After(sizes, turns).threads|
    requires D.After(sizes, turns).threads[i].Done?
    ensures |D.SentLately(turns, i)| == sizes[i]
  {
    D.AlwaysConsistent(sizes, turns);
    D.OneReplicaPerRegion(sizes, turns, i);
    assert D.RegionHolds(sizes, D.After(sizes, turns), i);
  }

  // ----- Ranges -----

  /** Blocks that are not asked for do not matter to a range. */
  lemma {:induction false} OnlyTouchedMatter(pieces: seq<seq<Byte>>, pieces': seq<seq<Byte>>, n: nat, offset: nat,
        end: nat)
    requires n <= |pieces| == |pieces'| && offset <= end
    requires forall i :: 0 <= i < |pieces| ==> |pieces'[i]| == |pieces[i]|
    requires forall i :: 0 <= i < |pieces| && R.TouchedAt(pieces, i, offset, end) ==> pieces'[i] == pieces[i]
    ensures |Flatten(pieces'[..n])| == |Flatten(pieces[..n])|
    ensures R.Parts(pieces'[..n], 0, offset, end) == R.Parts(pieces[..n], 0, offset, end)
  {
    if n == 0 {
      assert pieces'[..0] == pieces[..0];
    } else {
      OnlyTouchedMatter(pieces, pieces', n - 1, offset, end);
      R.NextPiece(pieces, n - 1, offset, end);
      R.NextPiece(pieces', n - 1, offset, end);
      assert R.TouchedAt(pieces, n - 1, offset, end) ==> pieces'[n - 1] == pieces[n - 1];
    }
  }

  /** What the nodes answer for the blocks that a range asks for. */
  ghost predicate RangeAnswered(b: G.Bounds, x: System, events: seq<Event>, p: Path, blocks: seq<BlockRecord>,
        answers: Store, offset: nat, end: nat)
    requires AllowedRun(b, x, events, p) && R.StoredWithSizes(blocks, answers)
  {
    forall i :: 0 <= i < |blocks| && R.TouchedAt(P.Pieces(blocks, answers), i, offset, end) ==>
      Answered(b, x, events, p, blocks[i], answers[blocks[i].id])
  }

  /** What `ReadRange` returns for blocks that answer so is the slice of the content. */
  ghost predicate ReadsTheSlice(pieces: seq<seq<Byte>>, content: seq<Byte>, offset: nat, length: Option<nat>)
    requires offset <= |content|
  {
    var end := R.EndOf(|content|, offset, length);
    R.Parts(pieces, 0, offset, end) == content[offset..end]
  }

  /** A range read under a lock is the slice of the committed content if and only if a byte is
      asked for, the range is open, or it starts at a block edge. */
  lemma {:induction false} RangeUnderLock(b: G.Bounds, x: System, events: seq<Event>, p: Path, content: seq<Byte>,
        l: string, listed: FileRecord, answers: Store, offset: nat, length: Option<nat>)
    requires Inv(b, x, p, content) && AllowedRun(b, x, events, p) && Holds(b, x, events, p, l)
    requires CommittedFile(x.y.s.root, p) == Ok(listed) && R.StoredWithSizes(listed.blocks, answers)
    requires offset <= |content|
    requires RangeAnswered(b, x, events, p, listed.blocks, answers, offset, R.EndOf(|content|, offset, length))
    ensures |Flatten(P.Pieces(listed.blocks, answers))| == |content|
    ensures ReadsTheSlice(P.Pieces(listed.blocks, answers), content, offset, length)
            <==> length != Some(0) || R.AtBlockEdge(P.Pieces(listed.blocks, x.store), offset)
  {
    TouchedAreWhole(b, x, events, p, content, l, listed, answers, offset, R.EndOf(|content|, offset, length));
    SliceFromTouched(P.Pieces(listed.blocks, answers), P.Pieces(listed.blocks, x.store), content, offset, length);
  }

  lemma {:induction false} TouchedAreWhole(b: G.Bounds, x: System, events: seq<Event>, p: Path, content: seq<Byte>,
        l: string, listed: FileRecord, answers: Store, offset: nat, end: nat)
    requires Inv(b, x, p, content) && AllowedRun(b, x, events, p) && Holds(b, x, events, p, l)
    requires CommittedFile(x.y.s.root, p) == Ok(listed) && R.StoredWithSizes(listed.blocks, answers)
    requires RangeAnswered(b, x, events, p, listed.blocks, answers, offset, end)
    ensures var pieces, whole := P.Pieces(listed.blocks, answers), P.Pieces(listed.blocks, x.store);
            && Flatten(whole) == content
            && (forall i :: 0 <= i < |pieces| ==> |whole[i]| == |pieces[i]|)
            && forall i :: 0 <= i < |pieces| && R.TouchedAt(pieces, i, offset, end) ==> whole[i] == pieces[i]
  {
    var pieces, whole := P.Pieces(listed.blocks, answers), P.Pieces(listed.blocks, x.store);
    ListedBlocks(b, x, p, content);
    forall i | 0 <= i < |pieces| && R.TouchedAt(pieces, i, offset, end) ensures whole[i] == pieces[i] {
      AnswerIsWhole(b, x, events, p, content, l, i, pieces[i]);
    }
  }

  lemma {:induction false} AnswerIsWhole(b: G.Bounds, x: System, events: seq<Event>, p: Path, content: seq<Byte>,
        l: string, i: nat, sent: seq<Byte>)
    requires Inv(b, x, p, content) && AllowedRun(b, x, events, p) && Holds(b, x, events, p, l)
    requires i < |CommittedFile(x.y.s.root, p).value.blocks|
    requires var block := CommittedFile(x.y.s.root, p).value.blocks[i];
             |sent| == block.size && Answered(b, x, events, p, block, sent)
    ensures sent == P.Pieces(CommittedFile(x.y.s.root, p).value.blocks, x.store)[i]
  {
    var file := CommittedFile(x.y.s.root, p).value;
    AnswerIsTheBlock(b, x, events, p, content, l, i, sent);
    assert IsChunk(P.Pieces(file.blocks, x.store)[i], content, file.blockSize, i);
  }

  lemma {:induction false} SliceFromTouched(pieces: seq<seq<Byte>>, whole: seq<seq<Byte>>, content: seq<Byte>,
        offset: nat, length: Option<nat>)
    requires |pieces| == |whole| && Flatten(whole) == content && offset <= |content|
    requires forall i :: 0 <= i < |pieces| ==> |whole[i]| == |pieces[i]|
    requires var end := R.EndOf(|content|, offset, length);
             forall i :: 0 <= i < |pieces| && R.TouchedAt(pieces, i, offset, end) ==> whole[i] == pieces[i]
    ensures |Flatten(pieces)| == |content|
    ensures ReadsTheSlice(pieces, content, offset, length) <==> length != Some(0) || R.AtBlockEdge(whole, offset)
  {
    OnlyTouchedMatter(pieces, whole, |pieces|, offset, R.EndOf(|content|, offset, length));
    assert pieces[..|pieces|] == pieces && whole[..|whole|] == whole;
    R.RangeIsSliceIff(whole, offset, length);
  }
}
