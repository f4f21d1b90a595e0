/** Reading a range of a file block by block. A range of at least one byte, or an open one,
    is exactly a slice of the content. A range of zero bytes strictly inside a block is not:
    the zero count means "to the end of the block" on the wire. */
module RangeRead {
  import opened Common
  import opened Tree
  import opened FileContent
  import opened WriteProtocol

  /** What a DataNode serves; a count of zero asks for the rest of the block. */
  function Served(bytes: seq<Byte>, from: nat, count: nat): seq<Byte> {
    if from >= |bytes| then []
    else if count == 0 then bytes[from..]
    else bytes[from..Min(|bytes|, from + count)]
  }

  /** A read sent to a DataNode. */
  datatype Request = Request(index: nat, from: nat, count: nat)

  /** The block that starts at `start` is asked for. */
  predicate Touched(start: nat, size: nat, offset: nat, end: nat) {
    start < end && start + size > offset
  }

  function PartOf(piece: seq<Byte>, start: nat, offset: nat, end: nat): seq<Byte>
    requires offset <= end
  {
    if Touched(start, |piece|, offset, end) then
      var from := Max(offset, start) - start;
      Served(piece, from, Min(end, start + |piece|) - start - from)
    else []
  }

  /** The parts of all blocks, the first of which starts at `start`. */
  function Parts(pieces: seq<seq<Byte>>, start: nat, offset: nat, end: nat): seq<Byte>
    requires offset <= end
  {
    if pieces == [] then []
    else PartOf(pieces[0], start, offset, end) + Parts(pieces[1..], start + |pieces[0]|, offset, end)
  }

  lemma {:induction false} PartsSnoc(pieces: seq<seq<Byte>>, last: seq<Byte>, start: nat, offset: nat, end: nat)
    requires offset <= end
    ensures Parts(pieces + [last], start, offset, end)
            == Parts(pieces, start, offset, end) + PartOf(last, start + |Flatten(pieces)|, offset, end)
  {
    if pieces == [] {
      assert pieces + [last] == [last] && [last][1..] == [];
      assert PartOf(last, start, offset, end) + [] == [] + PartOf(last, start, offset, end);
    } else {
      assert (pieces + [last])[1..] == pieces[1..] + [last];
      PartsSnoc(pieces[1..], last, start + |pieces[0]|, offset, end);
      Associate(PartOf(pieces[0], start, offset, end), Parts(pieces[1..], start + |pieces[0]|, offset, end),
                PartOf(last, start + |Flatten(pieces)|, offset, end));
    }
  }

  lemma {:induction false} Associate(a: seq<Byte>, b: seq<Byte>, c: seq<Byte>)
    ensures a + (b + c) == (a + b) + c
  {
  }

  /** A position counted from the start of the file, as one of the bytes that remain. */
  function Clamp(position: nat, start: nat, size: nat): nat {
    if position <= start then 0 else if position - start <= size then position - start else size
  }

  lemma {:induction false} SliceOfConcat(a: seq<Byte>, b: seq<Byte>, start: nat, offset: nat, end: nat)
    requires offset <= end
    ensures (a + b)[Clamp(offset, start, |a + b|)..Clamp(end, start, |a + b|)]
            == a[Clamp(offset, start, |a|)..Clamp(end, start, |a|)]
               + b[Clamp(offset, start + |a|, |b|)..Clamp(end, start + |a|, |b|)]
  {
    var from, to := Clamp(offset, start, |a + b|), Clamp(end, start, |a + b|);
    if to <= |a| {
      SliceInFirst(a, b, from, to);
    } else if from >= |a| {
      SliceInSecond(a, b, from, to);
    } else {
      SliceAcross(a, b, from, to);
    }
  }

  lemma {:induction false} SliceInFirst(a: seq<Byte>, b: seq<Byte>, from: nat, to: nat)
    requires from <= to <= |a|
    ensures (a + b)[from..to] == a[from..to] + b[0..0]
  {
  }

  lemma {:induction false} SliceInSecond(a: seq<Byte>, b: seq<Byte>, from: nat, to: nat)
    requires |a| <= from <= to <= |a| + |b|
    ensures (a + b)[from..to] == a[|a|..|a|] + b[from - |a|..to - |a|]
  {
  }

  lemma {:induction false} SliceAcross(a: seq<Byte>, b: seq<Byte>, from: nat, to: nat)
    requires from <= |a| <= to <= |a| + |b|
    ensures (a + b)[from..to] == a[from..|a|] + b[0..to - |a|]
  {
  }

  lemma {:induction false} PartIsTheSlice(piece: seq<Byte>, start: nat, offset: nat, end: nat)
    requires offset < end
    ensures PartOf(piece, start, offset, end) == SliceFor(piece, start, offset, end)
  {
    if !Touched(start, |piece|, offset, end) {
      assert Clamp(offset, start, |piece|) == Clamp(end, start, |piece|);
    }
  }

  /** The bytes of the range, of those that remain from `start` on. */
  function SliceFor(bytes: seq<Byte>, start: nat, offset: nat, end: nat): seq<Byte>
    requires offset <= end
  {
    bytes[Clamp(offset, start, |bytes|)..Clamp(end, start, |bytes|)]
  }

  /** What a way to cut pieces makes of all of them, the first of which starts at `start`. */
  function CutAll(cut: (seq<Byte>, nat) -> seq<Byte>, pieces: seq<seq<Byte>>, start: nat): seq<Byte> {
    if pieces == [] then [] else cut(pieces[0], start) + CutAll(cut, pieces[1..], start + |pieces[0]|)
  }

  /** Cutting joined bytes is joining the cuts. */
  ghost predicate Additive(cut: (seq<Byte>, nat) -> seq<Byte>) {
    && (forall start: nat :: cut([], start) == [])
    && forall a, b, start: nat :: cut(a + b, start) == cut(a, start) + cut(b, start + |a|)
  }

  lemma {:induction false} CutOfAll(cut: (seq<Byte>, nat) -> seq<Byte>, pieces: seq<seq<Byte>>, start: nat)
    requires Additive(cut)
    ensures CutAll(cut, pieces, start) == cut(Flatten(pieces), start)
  {
    if pieces != [] {
      CutOfAll(cut, pieces[1..], start + |pieces[0]|);
    }
  }

  lemma {:induction false} PartsAreCut(cut: (seq<Byte>, nat) -> seq<Byte>, pieces: seq<seq<Byte>>, start: nat,
        offset: nat, end: nat)
    requires offset <= end && CutsParts(cut, offset, end)
    ensures Parts(pieces, start, offset, end) == CutAll(cut, pieces, start)
  {
    if pieces != [] {
      PartsAreCut(cut, pieces[1..], start + |pieces[0]|, offset, end);
      SameJoined(PartOf(pieces[0], start, offset, end), cut(pieces[0], start),
                 Parts(pieces[1..], start + |pieces[0]|, offset, end), CutAll(cut, pieces[1..], start + |pieces[0]|));
    }
  }

  ghost predicate CutsParts(cut: (seq<Byte>, nat) -> seq<Byte>, offset: nat, end: nat)
    requires offset <= end
  {
    forall piece, from: nat {:trigger cut(piece, from)} :: cut(piece, from) == PartOf(piece, from, offset, end)
  }

  lemma {:induction false} SameJoined(a: seq<Byte>, a': seq<Byte>, b: seq<Byte>, b': seq<Byte>)
    requires a == a' && b == b'
    ensures a + b == a' + b'
  {
  }

  /** A non-empty range is the slice. */
  lemma {:induction false} PartsAreTheSlice(pieces: seq<seq<Byte>>, start: nat, offset: nat, end: nat)
    requires offset < end
    ensures Parts(pieces, start, offset, end) == SliceFor(Flatten(pieces), start, offset, end)
  {
    var cut := (bytes: seq<Byte>, from: nat) => SliceFor(bytes, from, offset, end);
    SlicesCutParts(cut, offset, end);
    SlicesAreAdditive(cut, offset, end);
    PartsAreCut(cut, pieces, start, offset, end);
    CutOfAll(cut, pieces, start);
  }

  lemma {:induction false} SlicesCutParts(cut: (seq<Byte>, nat) -> seq<Byte>, offset: nat, end: nat)
    requires offset < end && forall bytes, from: nat :: cut(bytes, from) == SliceFor(bytes, from, offset, end)
    ensures CutsParts(cut, offset, end)
  {
    forall piece, from: nat ensures cut(piece, from) == PartOf(piece, from, offset, end) {
      PartIsTheSlice(piece, from, offset, end);
    }
  }

  lemma {:induction false} SlicesAreAdditive(cut: (seq<Byte>, nat) -> seq<Byte>, offset: nat, end: nat)
    requires offset < end && forall bytes, from: nat :: cut(bytes, from) == SliceFor(bytes, from, offset, end)
    ensures Additive(cut)
  {
    forall from: nat ensures cut([], from) == [] {
      assert SliceFor([], from, offset, end) == [];
    }
    forall a, b, from: nat ensures cut(a + b, from) == cut(a, from) + cut(b, from + |a|) {
      SliceOfJoined(cut, a, b, from, offset, end);
    }
  }

  lemma {:induction false} SliceOfJoined(cut: (seq<Byte>, nat) -> seq<Byte>, a: seq<Byte>, b: seq<Byte>, from: nat,
        offset: nat, end: nat)
    requires offset <= end && cut(a + b, from) == SliceFor(a + b, from, offset, end)
    requires cut(a, from) == SliceFor(a, from, offset, end)
    requires cut(b, from + |a|) == SliceFor(b, from + |a|, offset, end)
    ensures cut(a + b, from) == cut(a, from) + cut(b, from + |a|)
  {
    SliceOfConcat(a, b, from, offset, end);
  }

  lemma {:induction false} RangeIsSlice(pieces: seq<seq<Byte>>, offset: nat, end: nat)
    requires offset < end <= |Flatten(pieces)|
    ensures Parts(pieces, 0, offset, end) == Flatten(pieces)[offset..end]
  {
    PartsAreTheSlice(pieces, 0, offset, end);
  }

  /** Where an empty range that starts at `offset` ends up: the end of the block that has
      `offset` strictly inside, or `offset` itself. */
  function EmptyRangeEnd(pieces: seq<seq<Byte>>, start: nat, offset: nat): nat {
    if pieces == [] || offset <= start then offset
    else if offset < start + |pieces[0]| then start + |pieces[0]|
    else EmptyRangeEnd(pieces[1..], start + |pieces[0]|, offset)
  }

  lemma {:induction false} NothingPastTheRange(pieces: seq<seq<Byte>>, start: nat, offset: nat, end: nat)
    requires offset <= end <= start
    ensures Parts(pieces, start, offset, end) == []
  {
    if pieces != [] {
      NothingPastTheRange(pieces[1..], start + |pieces[0]|, offset, end);
    }
  }

  lemma {:induction false} EmptyRangeEndInside(pieces: seq<seq<Byte>>, start: nat, offset: nat)
    requires start <= offset <= start + |Flatten(pieces)|
    ensures offset <= EmptyRangeEnd(pieces, start, offset) <= start + |Flatten(pieces)|
  {
    if pieces != [] && start + |pieces[0]| <= offset {
      EmptyRangeEndInside(pieces[1..], start + |pieces[0]|, offset);
    }
  }

  /** An empty range is served like the range up to the end of the block it falls in. */
  lemma {:induction false} EmptyRangeReadsToTheBlockEnd(pieces: seq<seq<Byte>>, start: nat, offset: nat)
    requires start <= offset
    ensures var end := EmptyRangeEnd(pieces, start, offset);
            Parts(pieces, start, offset, offset) == if end <= offset then [] else Parts(pieces, start, offset, end)
  {
    if offset == start {
      NothingPastTheRange(pieces, start, offset, offset);
    } else if pieces != [] {
      var next := start + |pieces[0]|;
      if offset < next {
        NothingPastTheRange(pieces[1..], next, offset, offset);
        NothingPastTheRange(pieces[1..], next, offset, next);
      } else {
        EmptyRangeReadsToTheBlockEnd(pieces[1..], next, offset);
      }
    }
  }

  /** `offset` is where some block begins or ends. */
  ghost predicate AtBlockEdge(pieces: seq<seq<Byte>>, offset: nat) {
    exists i :: 0 <= i <= |pieces| && |Flatten(pieces[..i])| == offset
  }

  lemma {:induction false} EmptyRangeIsEmptyIffAtEdge(pieces: seq<seq<Byte>>, start: nat, offset: nat)
    requires start <= offset <= start + |Flatten(pieces)|
    ensures EmptyRangeEnd(pieces, start, offset) == offset <==> AtBlockEdge(pieces, offset - start)
  {
    assert pieces[..0] == [];
    if pieces == [] || offset == start {
      assert |Flatten(pieces[..0])| == offset - start;
    } else {
      var head, rest := pieces[0], pieces[1..];
      forall i | 1 <= i <= |pieces| ensures |Flatten(pieces[..i])| == |head| + |Flatten(rest[..i - 1])| {
        assert pieces[..i][0] == head && pieces[..i][1..] == rest[..i - 1];
      }
      if offset < start + |head| {
        assert forall i :: 1 <= i <= |pieces| ==> |Flatten(pieces[..i])| >= |head|;
      } else {
        EmptyRangeIsEmptyIffAtEdge(rest, start + |head|, offset);
        if AtBlockEdge(rest, offset - start - |head|) {
          var i :| 0 <= i <= |rest| && |Flatten(rest[..i])| == offset - start - |head|;
          assert |Flatten(pieces[..i + 1])| == offset - start;
        }
        if AtBlockEdge(pieces, offset - start) {
          var i :| 0 <= i <= |pieces| && |Flatten(pieces[..i])| == offset - start;
          if i > 0 {
            assert |Flatten(rest[..i - 1])| == offset - start - |head|;
          }
        }
      }
    }
  }

  function EndOf(size: nat, offset: nat, length: Option<nat>): nat {
    if length.None? then size else Min(size, offset + length.value)
  }

  /** The exact condition: a range read is the slice unless it asks for zero bytes strictly
      inside a block. */
  lemma {:induction false} RangeIsSliceIff(pieces: seq<seq<Byte>>, offset: nat, length: Option<nat>)
    requires offset <= |Flatten(pieces)|
    ensures var content := Flatten(pieces);
            var end := EndOf(|content|, offset, length);
            Parts(pieces, 0, offset, end) == content[offset..end]
            <==> length != Some(0) || AtBlockEdge(pieces, offset)
  {
    var content := Flatten(pieces);
    var end := EndOf(|content|, offset, length);
    if offset < end {
      PartsAreTheSlice(pieces, 0, offset, end);
    } else {
      EmptyRangeIff(pieces, offset);
      if length != Some(0) {
        assert pieces[..|pieces|] == pieces;
        assert |Flatten(pieces[..|pieces|])| == offset;
      }
    }
  }

  lemma {:induction false} EmptyRangeIff(pieces: seq<seq<Byte>>, offset: nat)
    requires offset <= |Flatten(pieces)|
    ensures Parts(pieces, 0, offset, offset) == [] <==> AtBlockEdge(pieces, offset)
  {
    EmptyRangeEndInside(pieces, 0, offset);
    EmptyRangeReadsToTheBlockEnd(pieces, 0, offset);
    EmptyRangeIsEmptyIffAtEdge(pieces, 0, offset);
    if EmptyRangeEnd(pieces, 0, offset) > offset {
      PartsAreTheSlice(pieces, 0, offset, EmptyRangeEnd(pieces, 0, offset));
    }
  }

  /** The input it fails on: no byte asked for at position 1 of a block of three. */
  lemma {:induction false} ZeroLengthReadsABlockTail()
    ensures Parts([[1, 2, 3]], 0, 1, 1) == [2, 3]
  {
    assert [[1, 2, 3]][1..] == [];
  }

  /** Exactly the blocks that share a byte with the range are asked for, once each, and for
      exactly the bytes they share. */
  ghost predicate AskedUpTo(requests: seq<Request>, pieces: seq<seq<Byte>>, count: nat, offset: nat, end: nat)
    requires count <= |pieces|
  {
    && (forall i, j :: 0 <= i < j < |requests| ==> requests[i].index < requests[j].index)
    && (forall r :: r in requests ==> r.index < count && AsksRight(r, pieces, offset, end))
    && forall i :: 0 <= i < count ==> (AsksFor(requests, i) <==> TouchedAt(pieces, i, offset, end))
  }

  /** The request is for the bytes from the later beginning to the earlier end. */
  ghost predicate AsksRight(r: Request, pieces: seq<seq<Byte>>, offset: nat, end: nat)
    requires r.index < |pieces|
  {
    var start := |Flatten(pieces[..r.index])|;
    && r.from == (if offset <= start then 0 else offset - start)
    && start + r.from + r.count == (if end <= start + |pieces[r.index]| then end else start + |pieces[r.index]|)
    && (offset < end && pieces[r.index] != [] ==> r.count > 0)
  }

  ghost predicate TouchedAt(pieces: seq<seq<Byte>>, i: nat, offset: nat, end: nat)
    requires i < |pieces|
  {
    |Flatten(pieces[..i])| < end && |Flatten(pieces[..i])| + |pieces[i]| > offset
  }

  ghost predicate AsksFor(requests: seq<Request>, i: nat) {
    exists r :: r in requests && r.index == i
  }

  /** The request for the block at `start`, if it is touched. */
  function RequestFor(index: nat, start: nat, size: nat, offset: nat, end: nat): seq<Request>
    requires offset <= end
  {
    if Touched(start, size, offset, end) then
      var from := Max(offset, start) - start;
      [Request(index, from, Min(end, start + size) - start - from)]
    else []
  }

  function Requests(pieces: seq<seq<Byte>>, count: nat, offset: nat, end: nat): seq<Request>
    requires count <= |pieces| && offset <= end
  {
    if count == 0 then []
    else Requests(pieces, count - 1, offset, end)
         + RequestFor(count - 1, |Flatten(pieces[..count - 1])|, |pieces[count - 1]|, offset, end)
  }

  lemma {:induction false} RequestsAreTheTouchedBlocks(pieces: seq<seq<Byte>>, count: nat, offset: nat, end: nat)
    requires count <= |pieces| && offset <= end
    ensures AskedUpTo(Requests(pieces, count, offset, end), pieces, count, offset, end)
  {
    if count > 0 {
      RequestsAreTheTouchedBlocks(pieces, count - 1, offset, end);
      var before, more := Requests(pieces, count - 1, offset, end),
                          RequestFor(count - 1, |Flatten(pieces[..count - 1])|, |pieces[count - 1]|, offset, end);
      forall i | 0 <= i < count ensures AsksFor(before + more, i) <==> TouchedAt(pieces, i, offset, end) {
        AsksForConcat(before, more, i);
        OneRequest(count - 1, |Flatten(pieces[..count - 1])|, |pieces[count - 1]|, offset, end, i);
        assert i < count - 1 ==> (AsksFor(before, i) <==> TouchedAt(pieces, i, offset, end));
      }
      forall r | r in more ensures r.index == count - 1 && AsksRight(r, pieces, offset, end) {
        assert r == more[0];
      }
    }
  }

  lemma {:induction false} OneRequest(index: nat, start: nat, size: nat, offset: nat, end: nat, i: nat)
    requires offset <= end
    ensures AsksFor(RequestFor(index, start, size, offset, end), i) <==> i == index && Touched(start, size, offset, end)
  {
    var requests := RequestFor(index, start, size, offset, end);
    if requests != [] {
      assert requests[0] in requests;
    }
  }

  lemma {:induction false} AsksForConcat(xs: seq<Request>, ys: seq<Request>, i: nat)
    ensures AsksFor(xs + ys, i) <==> AsksFor(xs, i) || AsksFor(ys, i)
  {
    if AsksFor(xs, i) {
      var r :| r in xs && r.index == i;
      assert r in xs + ys;
    }
    if AsksFor(ys, i) {
      var r :| r in ys && r.index == i;
      assert r in xs + ys;
    }
  }

  lemma {:induction false} NextPiece(pieces: seq<seq<Byte>>, i: nat, offset: nat, end: nat)
    requires i < |pieces| && offset <= end
    ensures |Flatten(pieces[..i + 1])| == |Flatten(pieces[..i])| + |pieces[i]|
    ensures Parts(pieces[..i + 1], 0, offset, end)
            == Parts(pieces[..i], 0, offset, end) + PartOf(pieces[i], |Flatten(pieces[..i])|, offset, end)
  {
    assert pieces[..i + 1] == pieces[..i] + [pieces[i]];
    FlattenSnoc(pieces[..i], pieces[i]);
    PartsSnoc(pieces[..i], pieces[i], 0, offset, end);
  }

  ghost predicate StoredWithSizes(blocks: seq<BlockRecord>, store: Store) {
    forall i :: 0 <= i < |blocks| ==> blocks[i].id in store && |store[blocks[i].id]| == blocks[i].size
  }

  method TotalSize(blocks: seq<BlockRecord>, ghost store: Store) returns (size: nat)
    requires StoredWithSizes(blocks, store)
    ensures size == |Flatten(Pieces(blocks, store))|
  {
    ghost var pieces := Pieces(blocks, store);
    size := 0;
    for i := 0 to |blocks|
      invariant size == |Flatten(pieces[..i])|
    {
      NextPiece(pieces, i, 0, 0);
      size := size + blocks[i].size;
    }
    assert pieces[..|blocks|] == pieces;
  }

  /** `_read_range`, with the blocks as the metadata lists them. `requests` is what goes out. */
  method ReadRange(blocks: seq<BlockRecord>, store: Store, offset: int, length: Option<int>)
    returns (r: Result<seq<Byte>>, requests: seq<Request>)
    requires StoredWithSizes(blocks, store)
    ensures var content := Flatten(Pieces(blocks, store));
            && (r.Ok? <==> 0 <= offset <= |content| && (length.Some? ==> length.value >= 0))
            && (r.Err? ==> r.error == InvalidPath && requests == [])
    ensures r.Ok? ==>
              var content := Flatten(Pieces(blocks, store));
              var end := EndOf(|content|, offset, if length.None? then None else Some(length.value));
              && r.value == Parts(Pieces(blocks, store), 0, offset, end)
              && (offset < end ==> r.value == content[offset..end])
              && AskedUpTo(requests, Pieces(blocks, store), |blocks|, offset, end)
  {
    var size := TotalSize(blocks, store);
    requests := [];
    if offset < 0 || (length.Some? && length.value < 0) || offset > size {
      return Err(InvalidPath), requests;
    }
    var end := if length.None? then size else Min(size, offset + length.value);
    var out, asked := ReadBlocks(blocks, store, offset, end);
    requests := asked;
    if offset < end {
      RangeIsSlice(Pieces(blocks, store), offset, end);
    }
    return Ok(out), requests;
  }

  /** One turn of the loop: where the range meets the block, and the read it takes. */
  method ReadBlock(bytes: seq<Byte>, index: nat, blockStart: nat, offset: nat, end: nat)
    returns (part: seq<Byte>, asked: seq<Request>)
    requires offset <= end
    ensures part == PartOf(bytes, blockStart, offset, end)
    ensures asked == RequestFor(index, blockStart, |bytes|, offset, end)
  {
    var blockEnd := blockStart + |bytes|;
    part, asked := [], [];
    if blockStart < end && blockEnd > offset {
      var startInBlock := Max(offset, blockStart) - blockStart;
      var count := Min(end, blockEnd) - blockStart - startInBlock;
      part, asked := Served(bytes, startInBlock, count), [Request(index, startInBlock, count)];
    }
  }

  /** The loop over the blocks, located by adding up sizes. */
  method ReadBlocks(blocks: seq<BlockRecord>, store: Store, offset: nat, end: nat)
    returns (out: seq<Byte>, requests: seq<Request>)
    requires StoredWithSizes(blocks, store) && offset <= end
    ensures out == Parts(Pieces(blocks, store), 0, offset, end)
    ensures AskedUpTo(requests, Pieces(blocks, store), |blocks|, offset, end)
  {
    ghost var pieces := Pieces(blocks, store);
    out, requests := [], [];
    var blockStart := 0;
    for i := 0 to |blocks|
      invariant blockStart == |Flatten(pieces[..i])|
      invariant out == Parts(pieces[..i], 0, offset, end)
      invariant requests == Requests(pieces, i, offset, end)
    {
      NextPiece(pieces, i, offset, end);
      var part, asked := ReadBlock(store[blocks[i].id], i, blockStart, offset, end);
      out, requests := out + part, requests + asked;
      blockStart := blockStart + blocks[i].size;
    }
    assert pieces[..|blocks|] == pieces;
    RequestsAreTheTouchedBlocks(pieces, |blocks|, offset, end);
  }
}
