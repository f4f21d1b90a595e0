/** Which blocks a write touches, and what the file is once they are replaced. */
module WritePlan {
  import opened Common
  import opened Chunking

  datatype PlanSlot = PlanSlot(index: nat, size: int)

  /** `plan_write_slots`. A zero block size raises `ZeroDivisionError`, which the log
      reports as an internal error. */
  function PlanWriteSlots(sizes: seq<int>, blockSize: nat, offset: int, length: int): Result<seq<PlanSlot>> {
    var size := Sum(sizes);
    if length <= 0 || offset < 0 || offset > size then Err(InvalidPath)
    else if blockSize == 0 then Err(Internal)
    else Ok(PlanBetween(offset / blockSize, (offset + length - 1) / blockSize, Max(size, offset + length), blockSize))
  }

  /** The slots of blocks `first` to `last`: full, except at the end of the file. */
  function PlanBetween(first: nat, last: int, newSize: int, blockSize: nat): (r: seq<PlanSlot>)
    decreases last - first
    ensures |r| == Max(last - first + 1, 0)
    ensures forall k {:trigger r[k]} :: 0 <= k < |r| ==>
      r[k] == PlanSlot(first + k, Min(blockSize, newSize - Start(first + k, blockSize)))
  {
    if last < first then []
    else [PlanSlot(first, Min(blockSize, newSize - Start(first, blockSize)))]
         + PlanBetween(first + 1, last, newSize, blockSize)
  }

  /** The bytes of a file after writing `data` at `offset`: overwrite or extend, never insert. */
  function Splice<T>(content: seq<T>, offset: nat, data: seq<T>): (r: seq<T>)
    requires offset <= |content|
    ensures |r| == Max(|content|, offset + |data|)
  {
    seq(Max(|content|, offset + |data|), (j: int) requires 0 <= j < Max(|content|, offset + |data|) =>
      if offset <= j < offset + |data| then data[j - offset] else content[j])
  }

  /** In slices: what was before, the data, and what was beyond its end. */
  lemma {:induction false} SpliceInSlices<T>(content: seq<T>, offset: nat, data: seq<T>)
    requires offset <= |content|
    ensures Splice(content, offset, data)
            == content[..offset] + data + if offset + |data| < |content| then content[offset + |data|..] else []
  {
  }

  /** A list with `news` laid over it from position `first`. */
  function Overlay<T>(olds: seq<T>, first: nat, news: seq<T>): (r: seq<T>)
    requires first <= |olds|
    ensures |r| == Max(|olds|, first + |news|)
    ensures forall i {:trigger r[i]} :: 0 <= i < |r| ==>
      r[i] == if first <= i < first + |news| then news[i - first] else olds[i]
  {
    olds[..first] + news + if first + |news| < |olds| then olds[first + |news|..] else []
  }

  function Sizes(plan: seq<PlanSlot>): (r: seq<int>)
    ensures |r| == |plan| && forall k :: 0 <= k < |plan| ==> r[k] == plan[k].size
  {
    if plan == [] then [] else [plan[0].size] + Sizes(plan[1..])
  }

  /** A plan in words: consecutive blocks, from the one holding the first byte written
      to the one holding the last. */
  ghost predicate PlanShape(plan: seq<PlanSlot>, size: int, blockSize: nat, offset: int, length: int, first: nat) {
    && |plan| > 0
    && Start(first, blockSize) <= offset < Start(first + 1, blockSize)
    && Start(first + |plan| - 1, blockSize) < offset + length <= Start(first + |plan|, blockSize)
    && forall k {:trigger plan[k]} :: 0 <= k < |plan| ==>
         && plan[k].index == first + k
         && plan[k].size == Min(blockSize, Max(size, offset + length) - Start(first + k, blockSize))
         && 1 <= plan[k].size <= blockSize
  }

  lemma {:induction false} PlanBetweenHasShape(first: nat, last: nat, size: int, blockSize: nat, offset: int,
        length: int)
    requires blockSize > 0 && length > 0
    requires Start(first, blockSize) <= offset < Start(first + 1, blockSize)
    requires Start(last, blockSize) <= offset + length - 1 < Start(last + 1, blockSize)
    ensures PlanShape(PlanBetween(first, last, Max(size, offset + length), blockSize), size, blockSize,
                      offset, length, first)
  {
    if last < first {
      StartMono(last + 1, first, blockSize);
      assert false;
    }
    var plan := PlanBetween(first, last, Max(size, offset + length), blockSize);
    assert |plan| == last - first + 1;
    forall k | 0 <= k < |plan| ensures 1 <= plan[k].size <= blockSize {
      StartMono(first + k, last, blockSize);
    }
  }

  lemma {:induction false} PlanHasShape(sizes: seq<int>, blockSize: nat, offset: int, length: int)
    requires PlanWriteSlots(sizes, blockSize, offset, length).Ok?
    ensures PlanShape(PlanWriteSlots(sizes, blockSize, offset, length).value, Sum(sizes), blockSize,
                      offset, length, offset / blockSize)
  {
    BlockOfPosition(offset, blockSize);
    BlockOfPosition(offset + length - 1, blockSize);
    PlanBetweenHasShape(offset / blockSize, (offset + length - 1) / blockSize, Sum(sizes), blockSize, offset, length);
  }

  lemma {:induction false} PlanHasSomeShape(sizes: seq<int>, blockSize: nat, offset: int, length: int)
    returns (first: nat)
    requires PlanWriteSlots(sizes, blockSize, offset, length).Ok?
    ensures PlanShape(PlanWriteSlots(sizes, blockSize, offset, length).value, Sum(sizes), blockSize, offset, length,
                      first)
    ensures blockSize > 0 && length > 0 && 0 <= offset <= Sum(sizes)
  {
    first := offset / blockSize;
    PlanHasShape(sizes, blockSize, offset, length);
  }

  /** A slot is planned for block `i` exactly when the stretch written and the block overlap. */
  lemma {:induction false} PlanIsTheTouchedBlocks(plan: seq<PlanSlot>, size: int, blockSize: nat, offset: int,
        length: int, first: nat, i: nat)
    requires PlanShape(plan, size, blockSize, offset, length, first)
    ensures (exists k :: 0 <= k < |plan| && plan[k].index == i) <==>
            Start(i, blockSize) < offset + length && offset < Start(i + 1, blockSize)
  {
    if i < first {
      StartMono(i + 1, first, blockSize);
    } else if i >= first + |plan| {
      StartMono(first + |plan|, i, blockSize);
    } else {
      assert plan[i - first].index == i;
      StartMono(i, first + |plan| - 1, blockSize);
      StartMono(first + 1, i + 1, blockSize);
    }
  }

  // ----- Sizes -----

  /** The first touched block exists already or is the next one: writes leave no holes. */
  lemma {:induction false} PlanStartsInside(sizes: seq<int>, blockSize: nat, offset: int, first: nat)
    requires Layout(sizes, blockSize) && offset <= Sum(sizes)
    requires Start(first, blockSize) <= offset
    ensures first <= |sizes|
  {
    if first > |sizes| {
      StartMono(|sizes| + 1, first, blockSize);
    }
    LayoutIsSized(sizes, blockSize);
  }

  /** The longer of the old file and the written stretch decides the number of blocks. */
  lemma {:induction false} OverlayCount(count: nat, size: int, blockSize: nat, end: int, blocks: nat)
    requires CountFits(count, size, blockSize)
    requires blocks > 0 && Start(blocks - 1, blockSize) < end <= Start(blocks, blockSize)
    ensures CountFits(Max(count, blocks), Max(size, end), blockSize)
  {
    if count > blocks {
      StartMono(blocks, count - 1, blockSize);
    } else if count < blocks {
      StartMono(count, blocks - 1, blockSize);
    }
  }

  lemma {:induction false} UntouchedSize(sizes: seq<int>, size: int, blockSize: nat, end: int, first: nat, past: nat,
        i: nat)
    requires Sized(sizes, size, blockSize) && i < |sizes| && first <= |sizes|
    requires Start(first, blockSize) < end <= Start(past, blockSize) && Start(first, blockSize) <= size
    requires i < first || past <= i
    ensures sizes[i] == Min(blockSize, Max(size, end) - Start(i, blockSize))
  {
    if i < first {
      StartMono(i + 1, first, blockSize);
    } else {
      StartMono(past, i, blockSize);
      StartMono(i, |sizes| - 1, blockSize);
    }
  }

  lemma {:induction false} OverlaySizes(sizes: seq<int>, size: int, plan: seq<PlanSlot>, blockSize: nat, offset: int,
        length: int, first: nat)
    requires Sized(sizes, size, blockSize) && first <= |sizes| && offset <= size
    requires PlanShape(plan, size, blockSize, offset, length, first)
    ensures Sized(Overlay(sizes, first, Sizes(plan)), Max(size, offset + length), blockSize)
  {
    var after := Overlay(sizes, first, Sizes(plan));
    assert |after| == Max(|sizes|, first + |plan|);
    assert CountFits(|after|, Max(size, offset + length), blockSize) by {
      OverlayCount(|sizes|, size, blockSize, offset + length, first + |plan|);
    }
    StartMono(first, first + |plan| - 1, blockSize);
    OverlaySizesAt(sizes, size, plan, blockSize, offset, length, first);
  }

  lemma {:induction false} OverlaySizesAt(sizes: seq<int>, size: int, plan: seq<PlanSlot>, blockSize: nat, offset: int,
        length: int, first: nat)
    requires Sized(sizes, size, blockSize) && first <= |sizes| && offset <= size
    requires PlanShape(plan, size, blockSize, offset, length, first)
    requires Start(first, blockSize) < offset + length
    ensures var after := Overlay(sizes, first, Sizes(plan));
            forall i {:trigger after[i]} :: 0 <= i < |after| ==>
              after[i] == Min(blockSize, Max(size, offset + length) - Start(i, blockSize))
  {
    var after := Overlay(sizes, first, Sizes(plan));
    forall i {:trigger after[i]} | 0 <= i < |after|
      ensures after[i] == Min(blockSize, Max(size, offset + length) - Start(i, blockSize))
    {
      OverlaySizeAt(sizes, size, plan, blockSize, offset, length, first, i);
    }
  }

  lemma {:induction false} OverlaySizeAt(sizes: seq<int>, size: int, plan: seq<PlanSlot>, blockSize: nat, offset: int,
        length: int, first: nat, i: nat)
    requires Sized(sizes, size, blockSize) && first <= |sizes| && offset <= size
    requires PlanShape(plan, size, blockSize, offset, length, first)
    requires Start(first, blockSize) < offset + length && i < |Overlay(sizes, first, Sizes(plan))|
    ensures Overlay(sizes, first, Sizes(plan))[i] == Min(blockSize, Max(size, offset + length) - Start(i, blockSize))
  {
    if first <= i < first + |plan| {
      var slot := plan[i - first];
      assert slot.index == i;
    } else {
      UntouchedSize(sizes, size, blockSize, offset + length, first, first + |plan|, i);
    }
  }

  /** D-P4 is preserved: replacing the touched blocks leaves every block but the last
      full, and the file is `max(size, offset + length)` bytes long. */
  lemma {:induction false} PlanKeepsLayout(sizes: seq<int>, blockSize: nat, offset: int, length: int)
    requires Layout(sizes, blockSize)
    requires PlanWriteSlots(sizes, blockSize, offset, length).Ok?
    ensures offset / blockSize <= |sizes|
    ensures var plan := PlanWriteSlots(sizes, blockSize, offset, length).value;
            var after := Overlay(sizes, offset / blockSize, Sizes(plan));
            Layout(after, blockSize) && Sum(after) == Max(Sum(sizes), offset + length)
  {
    var plan := PlanWriteSlots(sizes, blockSize, offset, length).value;
    var first := offset / blockSize;
    PlanHasShape(sizes, blockSize, offset, length);
    PlanStartsInside(sizes, blockSize, offset, first);
    LayoutIsSized(sizes, blockSize);
    OverlaySizes(sizes, Sum(sizes), plan, blockSize, offset, length, first);
    SizedIsLayout(Overlay(sizes, first, Sizes(plan)), Max(Sum(sizes), offset + length), blockSize);
  }

  // ----- Bytes -----

  /** Outside the stretch written, the bytes stay where they were. */
  lemma {:induction false} SpliceElsewhere<T>(content: seq<T>, offset: nat, data: seq<T>, from: nat, to: nat)
    requires offset <= |content| && from <= to <= |content|
    requires to <= offset || offset + |data| <= from
    ensures Splice(content, offset, data)[from..to] == content[from..to]
  {
  }

  /** Outside the touched blocks, the old blocks are already the blocks of the new content. */
  lemma {:induction false} UntouchedChunk<T>(piece: seq<T>, content: seq<T>, blockSize: nat, offset: nat, data: seq<T>,
                          first: nat, past: nat, i: nat)
    requires offset <= |content| && Start(i, blockSize) < |content|
    requires Start(first, blockSize) <= offset && offset + |data| <= Start(past, blockSize)
    requires i < first || past <= i
    requires IsChunk(piece, content, blockSize, i)
    ensures IsChunk(piece, Splice(content, offset, data), blockSize, i)
  {
    if i < first {
      StartMono(i + 1, first, blockSize);
    } else {
      StartMono(past, i, blockSize);
    }
    SpliceElsewhere(content, offset, data, Start(i, blockSize), Min(Start(i + 1, blockSize), |content|));
  }

  lemma {:induction false} OverlayChunks<T>(chunks: seq<seq<T>>, content: seq<T>, blockSize: nat, offset: nat,
        data: seq<T>, first: nat, news: seq<seq<T>>)
    requires IsChunking(chunks, content, blockSize) && offset <= |content| && first <= |chunks|
    requires |news| > 0 && Start(first, blockSize) <= offset
    requires Start(first + |news| - 1, blockSize) < offset + |data| <= Start(first + |news|, blockSize)
    requires forall k :: 0 <= k < |news| ==> IsChunk(news[k], Splice(content, offset, data), blockSize, first + k)
    ensures IsChunking(Overlay(chunks, first, news), Splice(content, offset, data), blockSize)
  {
    var spliced := Splice(content, offset, data);
    var after := Overlay(chunks, first, news);
    OverlayCount(|chunks|, |content|, blockSize, offset + |data|, first + |news|);
    forall i | 0 <= i < |after| ensures IsChunk(after[i], spliced, blockSize, i) {
      if first <= i < first + |news| {
        OverlaidPiece(chunks, first, news, i);
        assert IsChunk(news[i - first], spliced, blockSize, first + (i - first));
      } else {
        KeptPiece(chunks, first, news, i);
        KeptChunk(chunks, content, blockSize, offset, data, first, first + |news|, i);
      }
    }
  }

  lemma {:induction false} OverlaidPiece<T>(chunks: seq<T>, first: nat, news: seq<T>, i: nat)
    requires first <= |chunks| && first <= i < first + |news|
    ensures Overlay(chunks, first, news)[i] == news[i - first]
  {
  }

  lemma {:induction false} KeptPiece<T>(chunks: seq<T>, first: nat, news: seq<T>, i: nat)
    requires first <= |chunks| && i < |Overlay(chunks, first, news)| && !(first <= i < first + |news|)
    ensures i < |chunks| && Overlay(chunks, first, news)[i] == chunks[i]
  {
  }

  lemma {:induction false} KeptChunk<T>(chunks: seq<seq<T>>, content: seq<T>, blockSize: nat, offset: nat, data: seq<T>,
                                        first: nat, past: nat, i: nat)
    requires IsChunking(chunks, content, blockSize) && offset <= |content| && i < |chunks| && !(first <= i < past)
    requires Start(first, blockSize) <= offset && first < past && offset + |data| <= Start(past, blockSize)
    ensures IsChunk(chunks[i], Splice(content, offset, data), blockSize, i)
  {
    StartMono(i, |chunks| - 1, blockSize);
    UntouchedChunk(chunks[i], content, blockSize, offset, data, first, past, i);
  }

  /** Replacing the touched blocks by the corresponding blocks of the spliced content
      gives a file whose bytes are the spliced content. */
  lemma {:induction false} OverlayIsSplice<T>(chunks: seq<seq<T>>, content: seq<T>, blockSize: nat, offset: nat,
        data: seq<T>, plan: seq<PlanSlot>, first: nat, news: seq<seq<T>>)
    requires IsChunking(chunks, content, blockSize) && offset <= |content|
    requires PlanShape(plan, |content|, blockSize, offset, |data|, first)
    requires |news| == |plan|
    requires forall k :: 0 <= k < |plan| ==>
      IsChunk(news[k], Splice(content, offset, data), blockSize, plan[k].index)
    ensures first <= |chunks|
    ensures IsChunking(Overlay(chunks, first, news), Splice(content, offset, data), blockSize)
    ensures Flatten(Overlay(chunks, first, news)) == Splice(content, offset, data)
  {
    LayoutOfChunking(chunks, content, blockSize);
    PlanStartsInside(Lengths(chunks), blockSize, offset, first);
    OverlayChunks(chunks, content, blockSize, offset, data, first, news);
    var after := Overlay(chunks, first, news);
    FlattenChunking(after, Splice(content, offset, data), blockSize, |after|);
  }
}
