/** Byte strings cut into blocks that are all full except the last one (D-P4). */
module Chunking {
  import opened Common

  /** Where block `i` begins: `i * blockSize`, kept free of products for the solver. */
  function Start(i: nat, blockSize: nat): nat {
    if i == 0 then 0 else Start(i - 1, blockSize) + blockSize
  }

  lemma {:induction false} StartIsProduct(i: nat, blockSize: nat)
    ensures Start(i, blockSize) == i * blockSize
  {
    if i > 0 {
      StartIsProduct(i - 1, blockSize);
      assert i * blockSize == (i - 1) * blockSize + blockSize;
    }
  }

  lemma {:induction false} StartMono(a: nat, b: nat, blockSize: nat)
    requires a <= b
    ensures Start(a, blockSize) <= Start(b, blockSize)
    decreases b
  {
    if a < b {
      StartMono(a, b - 1, blockSize);
    }
  }

  /** The quotient of the Euclidean division is the block a position falls in. */
  lemma {:induction false} BlockOfPosition(position: nat, blockSize: nat)
    requires blockSize > 0
    ensures Start(position / blockSize, blockSize) <= position < Start(position / blockSize + 1, blockSize)
  {
    var block := position / blockSize;
    StartIsProduct(block, blockSize);
    assert position == block * blockSize + position % blockSize;
  }

  lemma {:induction false} BlockUnique(a: nat, b: nat, position: int, blockSize: nat)
    requires Start(a, blockSize) <= position < Start(a + 1, blockSize)
    requires Start(b, blockSize) <= position < Start(b + 1, blockSize)
    ensures a == b
  {
    if a < b {
      StartMono(a + 1, b, blockSize);
    } else if b < a {
      StartMono(b + 1, a, blockSize);
    }
  }

  // ----- Block sizes -----

  /** Sizes of a well laid out file: every block full, the last one possibly shorter. */
  ghost predicate Layout(sizes: seq<int>, blockSize: nat) {
    && blockSize > 0
    && (forall i :: 0 <= i < |sizes| ==> 1 <= sizes[i] <= blockSize)
    && (forall i :: 0 <= i < |sizes| - 1 ==> sizes[i] == blockSize)
  }

  /** `count` blocks of `blockSize` are exactly what `length` bytes need. */
  ghost predicate CountFits(count: nat, length: int, blockSize: nat) {
    && length <= Start(count, blockSize)
    && (count > 0 ==> Start(count - 1, blockSize) < length)
    && (count == 0 ==> length == 0)
  }

  /** `sizes` are the block sizes of a laid out file of `total` bytes. */
  ghost predicate Sized(sizes: seq<int>, total: int, blockSize: nat) {
    && blockSize > 0
    && CountFits(|sizes|, total, blockSize)
    && forall i {:trigger sizes[i]} :: 0 <= i < |sizes| ==> sizes[i] == Min(blockSize, total - Start(i, blockSize))
  }

  lemma {:induction false} LayoutStart(sizes: seq<int>, blockSize: nat, i: nat)
    requires Layout(sizes, blockSize) && i <= |sizes|
    ensures i < |sizes| ==> Sum(sizes[..i]) == Start(i, blockSize)
    ensures i == |sizes| > 0 ==> Sum(sizes[..i]) == Start(i - 1, blockSize) + sizes[i - 1]
  {
    if i > 0 {
      LayoutStart(sizes, blockSize, i - 1);
      SumTake(sizes, i - 1);
    }
  }

  lemma {:induction false} LayoutIsSized(sizes: seq<int>, blockSize: nat)
    requires Layout(sizes, blockSize)
    ensures Sized(sizes, Sum(sizes), blockSize)
  {
    assert sizes[..|sizes|] == sizes;
    LayoutStart(sizes, blockSize, |sizes|);
    forall i {:trigger sizes[i]} | 0 <= i < |sizes|
      ensures sizes[i] == Min(blockSize, Sum(sizes) - Start(i, blockSize))
    {
      if i < |sizes| - 1 {
        StartMono(i + 1, |sizes| - 1, blockSize);
      }
    }
  }

  lemma {:induction false} SizedIsLayout(sizes: seq<int>, total: int, blockSize: nat)
    requires Sized(sizes, total, blockSize)
    ensures Layout(sizes, blockSize) && Sum(sizes) == total
  {
    forall i | 0 <= i < |sizes|
      ensures 1 <= sizes[i] <= blockSize && (i < |sizes| - 1 ==> sizes[i] == blockSize)
    {
      StartMono(i, |sizes| - 1, blockSize);
      if i < |sizes| - 1 {
        StartMono(i + 1, |sizes| - 1, blockSize);
      }
    }
    assert sizes[..|sizes|] == sizes;
    LayoutStart(sizes, blockSize, |sizes|);
  }

  // ----- Bytes -----

  /** Block `i` of a byte string. */
  function Chunk<T>(content: seq<T>, blockSize: nat, i: nat): seq<T>
    requires Start(i, blockSize) <= |content|
  {
    content[Start(i, blockSize)..Min(Start(i + 1, blockSize), |content|)]
  }

  ghost predicate IsChunk<T>(piece: seq<T>, content: seq<T>, blockSize: nat, i: nat) {
    Start(i, blockSize) <= |content| && piece == Chunk(content, blockSize, i)
  }

  ghost predicate IsChunking<T>(chunks: seq<seq<T>>, content: seq<T>, blockSize: nat) {
    && blockSize > 0
    && CountFits(|chunks|, |content|, blockSize)
    && forall i :: 0 <= i < |chunks| ==> IsChunk(chunks[i], content, blockSize, i)
  }

  lemma {:induction false} PieceIsChunk<T>(piece: seq<T>, content: seq<T>, blockSize: nat, i: nat, start: nat)
    requires start == Start(i, blockSize) && start + |piece| <= |content|
    requires |piece| == Min(blockSize, |content| - start)
    requires content[start..start + |piece|] == piece
    ensures IsChunk(piece, content, blockSize, i)
  {
    assert Start(i + 1, blockSize) == start + blockSize;
  }

  lemma {:induction false} LayoutPieceSize<T>(chunks: seq<seq<T>>, blockSize: nat, i: nat)
    requires Layout(Lengths(chunks), blockSize) && i < |chunks|
    ensures |Flatten(chunks[..i])| == Start(i, blockSize)
    ensures |chunks[i]| == Min(blockSize, |Flatten(chunks)| - Start(i, blockSize))
  {
    var sizes := Lengths(chunks);
    FlattenLength(chunks[..i]);
    assert Lengths(chunks[..i]) == sizes[..i];
    LayoutStart(sizes, blockSize, i);
    FlattenLength(chunks);
    LayoutIsSized(sizes, blockSize);
    assert sizes[i] == |chunks[i]|;
  }

  lemma {:induction false} ChunkOfLayout<T>(chunks: seq<seq<T>>, blockSize: nat, i: nat)
    requires Layout(Lengths(chunks), blockSize) && i < |chunks|
    ensures IsChunk(chunks[i], Flatten(chunks), blockSize, i)
  {
    LayoutPieceSize(chunks, blockSize, i);
    FlattenSlice(chunks, i);
    PieceIsChunk(chunks[i], Flatten(chunks), blockSize, i, |Flatten(chunks[..i])|);
  }

  /** A laid out list of blocks is the chunking of its own concatenation. */
  lemma {:induction false} ChunkingOfLayout<T>(chunks: seq<seq<T>>, blockSize: nat)
    requires Layout(Lengths(chunks), blockSize)
    ensures IsChunking(chunks, Flatten(chunks), blockSize)
  {
    FlattenLength(chunks);
    LayoutIsSized(Lengths(chunks), blockSize);
    forall i | 0 <= i < |chunks| ensures IsChunk(chunks[i], Flatten(chunks), blockSize, i) {
      ChunkOfLayout(chunks, blockSize, i);
    }
  }

  /** Concatenating the chunks gives the byte string back. */
  lemma {:induction false} FlattenChunking<T>(chunks: seq<seq<T>>, content: seq<T>, blockSize: nat, i: nat)
    requires IsChunking(chunks, content, blockSize) && i <= |chunks|
    ensures Flatten(chunks[..i]) == content[..Min(Start(i, blockSize), |content|)]
    ensures i == |chunks| ==> Flatten(chunks) == content
  {
    if i > 0 {
      FlattenChunking(chunks, content, blockSize, i - 1);
      assert chunks[..i] == chunks[..i - 1] + [chunks[i - 1]];
      FlattenSnoc(chunks[..i - 1], chunks[i - 1]);
      assert IsChunk(chunks[i - 1], content, blockSize, i - 1);
      var from, to := Start(i - 1, blockSize), Min(Start(i, blockSize), |content|);
      assert content[..from] + content[from..to] == content[..to];
    }
    assert i == |chunks| ==> chunks[..i] == chunks;
  }

  /** The chunks of a byte string have the layout of a file. */
  lemma {:induction false} LayoutOfChunking<T>(chunks: seq<seq<T>>, content: seq<T>, blockSize: nat)
    requires IsChunking(chunks, content, blockSize)
    ensures Layout(Lengths(chunks), blockSize) && Sum(Lengths(chunks)) == |content|
  {
    var sizes := Lengths(chunks);
    forall i {:trigger sizes[i]} | 0 <= i < |sizes|
      ensures sizes[i] == Min(blockSize, |content| - Start(i, blockSize))
    {
      ChunkSize(chunks, content, blockSize, i);
    }
    SizedIsLayout(sizes, |content|, blockSize);
  }

  lemma {:induction false} ChunkSize<T>(chunks: seq<seq<T>>, content: seq<T>, blockSize: nat, i: nat)
    requires IsChunking(chunks, content, blockSize) && i < |chunks|
    ensures |chunks[i]| == Min(blockSize, |content| - Start(i, blockSize))
  {
    assert IsChunk(chunks[i], content, blockSize, i);
  }
}
