/** What a client writes into one new block: the data that falls in it, over a copy of the
    old block. */
module FileContent {
  import opened Common
  import opened Chunking
  import opened WritePlan
  import opened Mutations

  /** The blocks the DataNodes hold. A block never changes once a client has read it. */
  type Store = map<string, seq<Byte>>

  /** The stretch written and a block of `size` bytes at `start` overlap. */
  predicate Meets(start: nat, size: int, offset: nat, length: nat) {
    size > 0 && start < offset + length && offset < start + size
  }

  predicate Overlaps(slot: SlotView, blockSize: nat, offset: nat, length: nat) {
    Meets(Start(slot.index, blockSize), slot.newSize, offset, length)
  }

  /** The first `size` bytes of the old block, filled up with zeros. */
  function Base(prior: seq<Byte>, size: nat): (r: seq<Byte>)
    ensures |r| == size
  {
    seq(size, (j: int) requires 0 <= j < size => if j < |prior| then prior[j] else 0)
  }

  /** The data that falls in a block, over the old block. */
  function Overlaid(start: nat, size: nat, offset: nat, data: seq<Byte>, prior: seq<Byte>): (r: seq<Byte>)
    requires Meets(start, size, offset, |data|)
    ensures |r| == size
  {
    var from, to := Max(offset, start), Min(offset + |data|, start + size);
    Patch(Base(prior, size), from - start, data[from - offset..to - offset])
  }

  lemma {:induction false} OverlaidAt(start: nat, size: nat, offset: nat, data: seq<Byte>, prior: seq<Byte>, j: nat)
    requires Meets(start, size, offset, |data|) && j < size
    ensures Overlaid(start, size, offset, data, prior)[j] ==
            if offset <= start + j < offset + |data| then data[start + j - offset] else Base(prior, size)[j]
  {
    var from, to := Max(offset, start), Min(offset + |data|, start + size);
    PatchSliceAt(Base(prior, size), from - start, data, from - offset, to - offset, j);
  }

  lemma {:induction false} PatchSliceAt(base: seq<Byte>, at: nat, data: seq<Byte>, lo: nat, hi: nat, j: nat)
    requires lo <= hi <= |data| && at + (hi - lo) <= |base| && j < |base|
    ensures Patch(base, at, data[lo..hi])[j] == if at <= j < at + (hi - lo) then data[lo + (j - at)] else base[j]
  {
    PatchAt(base, at, data[lo..hi], j);
  }

  /** The new content of a slot's block. */
  function SlotBytes(slot: SlotView, blockSize: nat, offset: nat, data: seq<Byte>, prior: seq<Byte>): (r: seq<Byte>)
    requires Overlaps(slot, blockSize, offset, |data|)
    ensures |r| == slot.newSize
  {
    Overlaid(Start(slot.index, blockSize), slot.newSize, offset, data, prior)
  }

  /** The old block can be read, if there is one. */
  predicate Readable(slot: SlotView, store: Store) {
    slot.oldId == "" || slot.oldId in store
  }

  function Prior(slot: SlotView, store: Store): seq<Byte> {
    if slot.oldId != "" && slot.oldId in store then store[slot.oldId] else []
  }

  /** The whole block is overwritten, so the old one is not read. */
  predicate Covered(slot: SlotView, blockSize: nat, offset: nat, length: nat) {
    var start := Start(slot.index, blockSize);
    offset <= start && start + slot.newSize <= offset + length
  }

  lemma {:induction false} CoveredBytes(start: nat, size: nat, offset: nat, data: seq<Byte>, prior: seq<Byte>)
    requires Meets(start, size, offset, |data|) && offset <= start && start + size <= offset + |data|
    ensures Overlaid(start, size, offset, data, prior) == data[start - offset..start + size - offset]
  {
    var piece := data[start - offset..start + size - offset];
    assert Patch(Base(prior, size), 0, piece) == piece;
  }

  lemma {:induction false} CopiedOverZeros(prior: seq<Byte>, size: nat, zeros: seq<Byte>)
    requires |zeros| == size && forall i :: 0 <= i < size ==> zeros[i] == 0
    ensures Patch(zeros, 0, prior[..Min(|prior|, size)]) == Base(prior, size)
    ensures zeros == Base([], size)
  {
  }

  /** The data alone, when it covers the block. */
  method CoveringData(start: nat, size: nat, offset: nat, data: seq<Byte>, ghost prior: seq<Byte>)
    returns (content: seq<Byte>)
    requires Meets(start, size, offset, |data|) && offset <= start && start + size <= offset + |data|
    ensures content == Overlaid(start, size, offset, data, prior)
  {
    CoveredBytes(start, size, offset, data, prior);
    content := data[start - offset..start + size - offset];
  }

  method BlockStart(index: nat, blockSize: nat) returns (start: nat)
    ensures start == Start(index, blockSize)
  {
    StartIsProduct(index, blockSize);
    start := index * blockSize;
  }

  /** `_slot_content`. */
  method SlotContent(slot: SlotView, blockSize: nat, offset: nat, data: seq<Byte>, store: Store)
    returns (r: Result<seq<Byte>>)
    requires Overlaps(slot, blockSize, offset, |data|)
    ensures r.Ok? <==> Covered(slot, blockSize, offset, |data|) || Readable(slot, store)
    ensures r.Ok? ==> r.value == SlotBytes(slot, blockSize, offset, data, Prior(slot, store))
  {
    var blockStart := BlockStart(slot.index, blockSize);
    var blockEnd := blockStart + slot.newSize;
    var writeStart := Max(offset, blockStart);
    var writeEnd := Min(offset + |data|, blockEnd);
    if writeStart == blockStart && writeEnd == blockEnd {
      var content := CoveringData(blockStart, slot.newSize, offset, data, Prior(slot, store));
      return Ok(content);
    }
    if !Readable(slot, store) {
      return Err(PathNotFound);
    }
    var content := FillBuffer(blockStart, slot.newSize, offset, data, Prior(slot, store));
    return Ok(content[..]);
  }

  /** The buffer of a block: zeros, then the old block, then the data, each written in place. */
  method FillBuffer(blockStart: nat, size: nat, offset: nat, data: seq<Byte>, prior: seq<Byte>)
    returns (buffer: array<Byte>)
    requires Meets(blockStart, size, offset, |data|)
    ensures fresh(buffer) && buffer[..] == Overlaid(blockStart, size, offset, data, prior)
  {
    buffer := new Byte[size](_ => 0);
    CopiedOverZeros(prior, size, buffer[..]);
    AssignSlice(buffer, 0, prior[..Min(|prior|, size)]);
    var writeStart, writeEnd := Max(offset, blockStart), Min(offset + |data|, blockStart + size);
    AssignSlice(buffer, writeStart - blockStart, data[writeStart - offset..writeEnd - offset]);
  }

  /** Assignment to a slice of a byte array, of the same length. */
  method AssignSlice(buffer: array<Byte>, at: nat, bytes: seq<Byte>)
    requires at + |bytes| <= buffer.Length
    modifies buffer
    ensures buffer[..] == Patch(old(buffer[..]), at, bytes)
  {
    ghost var before := buffer[..];
    for i := 0 to |bytes|
      invariant forall j :: 0 <= j < buffer.Length ==>
        buffer[j] == if at <= j < at + i then bytes[j - at] else before[j]
    {
      buffer[at + i] := bytes[i];
    }
    forall j | 0 <= j < |before| ensures buffer[j] == Patch(before, at, bytes)[j] {
      PatchAt(before, at, bytes, j);
    }
    assert buffer[..] == Patch(before, at, bytes);
  }

  /** Where each byte of a new block comes from: the data, or the old block at the same
      position. The zero fill never shows. */
  lemma {:induction false} NoZeroFill(slot: SlotView, blockSize: nat, offset: nat, data: seq<Byte>, prior: seq<Byte>,
                     plan: seq<PlanSlot>, size: nat, first: nat, k: nat, j: nat)
    requires PlanShape(plan, size, blockSize, offset, |data|, first) && offset <= size && data != [] && k < |plan|
    requires slot.index == plan[k].index && slot.newSize == plan[k].size && j < slot.newSize
    requires |prior| == Max(0, Min(blockSize, size - Start(slot.index, blockSize)))
    ensures Overlaps(slot, blockSize, offset, |data|)
    ensures var position := Start(slot.index, blockSize) + j;
            var bytes := SlotBytes(slot, blockSize, offset, data, prior);
            if offset <= position < offset + |data| then bytes[j] == data[position - offset]
            else j < |prior| && bytes[j] == prior[j]
  {
    PlannedSlotOverlaps(slot, blockSize, offset, |data|, plan, size, first, k);
    OverlaidAt(Start(slot.index, blockSize), slot.newSize, offset, data, prior, j);
  }

  lemma {:induction false} PlannedSlotOverlaps(slot: SlotView, blockSize: nat, offset: nat, length: nat,
                              plan: seq<PlanSlot>, size: nat, first: nat, k: nat)
    requires PlanShape(plan, size, blockSize, offset, length, first) && length > 0 && k < |plan|
    requires slot.index == plan[k].index && slot.newSize == plan[k].size
    ensures Overlaps(slot, blockSize, offset, length)
  {
    StartMono(first + k, first + |plan| - 1, blockSize);
    StartMono(first + 1, first + k + 1, blockSize);
  }

  lemma {:induction false} SpliceAt(content: seq<Byte>, offset: nat, data: seq<Byte>, position: nat)
    requires offset <= |content| && position < |Splice(content, offset, data)|
    ensures Splice(content, offset, data)[position] ==
            if offset <= position < offset + |data| then data[position - offset] else content[position]
  {
  }

  /** The old block as it is needed: the block at that place, or nothing past the end. */
  ghost predicate PriorBlock(prior: seq<Byte>, content: seq<Byte>, blockSize: nat, index: nat) {
    if Start(index, blockSize) < |content| then IsChunk(prior, content, blockSize, index) else prior == []
  }

  lemma {:induction false} PriorAt(prior: seq<Byte>, content: seq<Byte>, blockSize: nat, index: nat)
    requires PriorBlock(prior, content, blockSize, index)
    ensures |prior| == Max(0, Min(blockSize, |content| - Start(index, blockSize)))
    ensures forall j :: 0 <= j < |prior| ==> prior[j] == content[Start(index, blockSize) + j]
  {
  }

  lemma {:induction false} SlotByteIsSpliced(slot: SlotView, blockSize: nat, offset: nat, data: seq<Byte>,
        prior: seq<Byte>, content: seq<Byte>, plan: seq<PlanSlot>, first: nat, k: nat, j: nat)
    requires PlanShape(plan, |content|, blockSize, offset, |data|, first) && offset <= |content| && data != []
    requires k < |plan|
    requires slot.index == plan[k].index && slot.newSize == plan[k].size && j < slot.newSize
    requires PriorBlock(prior, content, blockSize, slot.index)
    ensures Overlaps(slot, blockSize, offset, |data|)
    ensures Start(slot.index, blockSize) + j < |Splice(content, offset, data)|
    ensures SlotBytes(slot, blockSize, offset, data, prior)[j]
              == Splice(content, offset, data)[Start(slot.index, blockSize) + j]
  {
    PriorAt(prior, content, blockSize, slot.index);
    NoZeroFill(slot, blockSize, offset, data, prior, plan, |content|, first, k, j);
    ByteIsSpliced(SlotBytes(slot, blockSize, offset, data, prior), offset, data, prior, content,
                  Start(slot.index, blockSize), j);
  }

  lemma {:induction false} ByteIsSpliced(bytes: seq<Byte>, offset: nat, data: seq<Byte>, prior: seq<Byte>,
        content: seq<Byte>, start: nat, j: nat)
    requires offset <= |content| && j < |bytes|
    requires j < |prior| ==> start + j < |content| && prior[j] == content[start + j]
    requires if offset <= start + j < offset + |data| then bytes[j] == data[start + j - offset]
             else j < |prior| && bytes[j] == prior[j]
    ensures start + j < |Splice(content, offset, data)| && bytes[j] == Splice(content, offset, data)[start + j]
  {
    SpliceAt(content, offset, data, start + j);
  }

  lemma {:induction false} EqualFrom(piece: seq<Byte>, content: seq<Byte>, start: nat)
    requires start + |piece| <= |content|
    requires forall j :: 0 <= j < |piece| ==> piece[j] == content[start + j]
    ensures content[start..start + |piece|] == piece
  {
  }

  /** A new block is the corresponding block of the spliced content. */
  lemma {:induction false} SlotIsChunk(slot: SlotView, blockSize: nat, offset: nat, data: seq<Byte>, prior: seq<Byte>,
        content: seq<Byte>, plan: seq<PlanSlot>, first: nat, k: nat)
    requires PlanShape(plan, |content|, blockSize, offset, |data|, first) && offset <= |content| && data != []
    requires k < |plan|
    requires slot.index == plan[k].index && slot.newSize == plan[k].size
    requires PriorBlock(prior, content, blockSize, slot.index)
    ensures Overlaps(slot, blockSize, offset, |data|)
    ensures IsChunk(SlotBytes(slot, blockSize, offset, data, prior), Splice(content, offset, data), blockSize,
                    slot.index)
  {
    PlannedSlotOverlaps(slot, blockSize, offset, |data|, plan, |content|, first, k);
    var start := Start(slot.index, blockSize);
    var bytes := SlotBytes(slot, blockSize, offset, data, prior);
    var spliced := Splice(content, offset, data);
    forall j | 0 <= j < |bytes| ensures bytes[j] == spliced[start + j] {
      SlotByteIsSpliced(slot, blockSize, offset, data, prior, content, plan, first, k, j);
    }
    EqualFrom(bytes, spliced, start);
    PieceIsChunk(bytes, spliced, blockSize, slot.index, start);
  }
}
