/** The DFSE1 container: how a block lies on the disk of a DataNode. A header, the chunks,
    each sealed under its own nonce, and a sealed record with the size and the count.
    Sealing is ideal: a text opens only as what was sealed, under the same key, nonce and
    associated data. */
module Container {
  import opened Common
  import opened Chunking

  const CHUNK: nat := 1_048_576
  const TAG: nat := 16
  const HEADER: nat := 14
  const METADATA: nat := 48
  const RECORD: nat := 64
  const MAX_CHUNKS: nat := 4_294_967_295
  const PREFIX: nat := 8
  const SEALED_CHUNK: nat := 1_048_592
  const VERSION: Byte := 1

  /** The bytes of `DFSE1`. */
  const MAGIC: seq<Byte> := [68, 70, 83, 69, 49]
  /** The bytes of `metadata`. */
  const METADATA_TEXT: seq<Byte> := [109, 101, 116, 97, 100, 97, 116, 97]

  // ----- Fixed-width integers -----

  function Pow256(width: nat): nat {
    if width == 0 then 1 else 256 * Pow256(width - 1)
  }

  function BigEndian(n: nat, width: nat): (r: seq<Byte>)
    ensures |r| == width
  {
    if width == 0 then [] else BigEndian(n / 256, width - 1) + [(n % 256) as Byte]
  }

  function FromBigEndian(bytes: seq<Byte>): nat {
    if bytes == [] then 0 else 256 * FromBigEndian(bytes[..|bytes| - 1]) + bytes[|bytes| - 1] as nat
  }

  lemma {:induction false} BigEndianRoundTrip(n: nat, width: nat)
    requires n < Pow256(width)
    ensures FromBigEndian(BigEndian(n, width)) == n
  {
    if width > 0 {
      BigEndianRoundTrip(n / 256, width - 1);
      var bytes := BigEndian(n, width);
      assert bytes[..|bytes| - 1] == BigEndian(n / 256, width - 1);
    }
  }

  lemma {:induction false} Widths()
    ensures Pow256(4) == MAX_CHUNKS + 1 && Pow256(8) == 18_446_744_073_709_551_616
  {
    assert Pow256(2) == 65_536;
    assert Pow256(4) == 256 * (256 * Pow256(2));
    assert Pow256(6) == 256 * (256 * Pow256(4));
    assert Pow256(8) == 256 * (256 * Pow256(6));
  }

  // ----- Nonces and associated data -----

  function Nonce(prefix: seq<Byte>, counter: nat): (r: seq<Byte>)
    ensures |r| == |prefix| + 4
  {
    prefix + BigEndian(counter, 4)
  }

  /** Within a container no nonce is used twice, the metadata's included (section 8 of
      NIST SP 800-38D); across containers they differ when the random prefixes do. */
  lemma {:induction false} NoncesAreDistinct(p: seq<Byte>, i: nat, q: seq<Byte>, j: nat)
    requires |p| == |q| == PREFIX && i <= MAX_CHUNKS && j <= MAX_CHUNKS
    ensures Nonce(p, i) == Nonce(q, j) <==> p == q && i == j
  {
    Widths();
    if Nonce(p, i) == Nonce(q, j) {
      assert Nonce(p, i)[..PREFIX] == p && Nonce(q, j)[..PREFIX] == q;
      assert Nonce(p, i)[PREFIX..] == BigEndian(i, 4) && Nonce(q, j)[PREFIX..] == BigEndian(j, 4);
      BigEndianRoundTrip(i, 4);
      BigEndianRoundTrip(j, 4);
    }
  }

  function ChunkAad(id: seq<Byte>, index: nat, last: bool): (r: seq<Byte>)
    ensures |r| == |id| + 5
  {
    id + BigEndian(index, 4) + [if last then 1 else 0]
  }

  function MetadataAad(id: seq<Byte>, header: seq<Byte>): (r: seq<Byte>)
    ensures |r| == |id| + 8 + |header|
  {
    id + METADATA_TEXT + header
  }

  /** Ids are 32 characters, so associated data tells blocks, positions and kinds apart. */
  lemma {:induction false} AadTellsApart(id: seq<Byte>, i: nat, last: bool, id': seq<Byte>, j: nat, last': bool,
        header: seq<Byte>)
    requires |id| == |id'| == 32 && i <= MAX_CHUNKS && j <= MAX_CHUNKS && |header| == HEADER
    ensures ChunkAad(id, i, last) == ChunkAad(id', j, last') <==> id == id' && i == j && last == last'
    ensures ChunkAad(id, i, last) != MetadataAad(id', header)
  {
    Widths();
    var x, y := ChunkAad(id, i, last), ChunkAad(id', j, last');
    if x == y {
      assert x[..32] == id && y[..32] == id';
      assert x[32..36] == BigEndian(i, 4) && y[32..36] == BigEndian(j, 4);
      assert x[36] == (if last then 1 else 0) && y[36] == (if last' then 1 else 0);
      BigEndianRoundTrip(i, 4);
      BigEndianRoundTrip(j, 4);
    }
  }

  lemma {:induction false} MetadataAadIsInjective(id: seq<Byte>, header: seq<Byte>, id': seq<Byte>, header': seq<Byte>)
    requires |id| == |id'| == 32 && MetadataAad(id, header) == MetadataAad(id', header')
    ensures id == id' && header == header'
  {
    var x, y := MetadataAad(id, header), MetadataAad(id', header');
    assert x[..32] == id && y[..32] == id' && x[40..] == header && y[40..] == header';
  }

  // ----- Ideal sealing -----

  datatype Key = Key(bytes: seq<Byte>)

  datatype Box = Box(key: Key, nonce: seq<Byte>, aad: seq<Byte>, text: seq<Byte>)

  /** What a byte on disk is: itself, or a position of a sealed text. */
  datatype Cell = Plain(byte: Byte) | Sealed(box: Box, at: nat)

  function Seal(key: Key, nonce: seq<Byte>, aad: seq<Byte>, text: seq<Byte>): (r: seq<Cell>)
    ensures |r| == |text| + TAG
  {
    seq(|text| + TAG, (i: nat) => Sealed(Box(key, nonce, aad, text), i))
  }

  function Open(key: Key, nonce: seq<Byte>, aad: seq<Byte>, cells: seq<Cell>): Option<seq<Byte>> {
    if |cells| >= TAG && cells[0].Sealed? && cells == Seal(key, nonce, aad, cells[0].box.text)
    then Some(cells[0].box.text)
    else None
  }

  lemma {:induction false} OpenSeal(key: Key, nonce: seq<Byte>, aad: seq<Byte>, text: seq<Byte>)
    ensures Open(key, nonce, aad, Seal(key, nonce, aad, text)) == Some(text)
  {
  }

  /** What opens was sealed. */
  lemma {:induction false} OpenedBox(key: Key, nonce: seq<Byte>, aad: seq<Byte>, cells: seq<Cell>)
    requires Open(key, nonce, aad, cells).Some?
    ensures |cells| >= TAG && cells[0] == Sealed(Box(key, nonce, aad, Open(key, nonce, aad, cells).value), 0)
    ensures |cells| == |Open(key, nonce, aad, cells).value| + TAG
  {
  }

  function Plains(bytes: seq<Byte>): (r: seq<Cell>)
    ensures |r| == |bytes| && forall i :: 0 <= i < |r| ==> r[i] == Plain(bytes[i])
  {
    if bytes == [] then [] else [Plain(bytes[0])] + Plains(bytes[1..])
  }

  // ----- The container of a byte string -----

  /** The only cutting the writer produces: full chunks, and a last one of at least a byte. */
  function Cut(data: seq<Byte>): seq<seq<Byte>> {
    if data == [] then []
    else if |data| <= CHUNK then [data]
    else [data[..CHUNK]] + Cut(data[CHUNK..])
  }

  lemma {:induction false} CutIsChunking(data: seq<Byte>)
    ensures IsChunking(Cut(data), data, CHUNK)
  {
    assert Start(1, CHUNK) == CHUNK;
    if |data| > CHUNK {
      var more := Cut(data[CHUNK..]);
      CutIsChunking(data[CHUNK..]);
      StartShift(|more|, CHUNK);
      StartShift(|more| - 1, CHUNK);
      FirstChunk(data);
      forall i | 0 < i < |Cut(data)| ensures IsChunk(Cut(data)[i], data, CHUNK, i) {
        assert IsChunk(more[i - 1], data[CHUNK..], CHUNK, i - 1);
        ShiftedChunk(more[i - 1], data, i - 1);
      }
    }
  }

  lemma {:induction false} FirstChunk(data: seq<Byte>)
    requires |data| > CHUNK
    ensures IsChunk(data[..CHUNK], data, CHUNK, 0)
  {
    assert Start(1, CHUNK) == CHUNK;
    PieceIsChunk(data[..CHUNK], data, CHUNK, 0, 0);
  }

  /** A chunk of what comes after the first chunk is the next chunk of the whole. */
  lemma {:induction false} ShiftedChunk(piece: seq<Byte>, data: seq<Byte>, i: nat)
    requires |data| > CHUNK && IsChunk(piece, data[CHUNK..], CHUNK, i)
    ensures IsChunk(piece, data, CHUNK, i + 1)
  {
    StartShift(i, CHUNK);
    StartShift(i + 1, CHUNK);
    var from := Start(i, CHUNK);
    SliceOfRest(data, CHUNK, from, from + |piece|);
    PieceIsChunk(piece, data, CHUNK, i + 1, CHUNK + from);
  }

  lemma {:induction false} SliceOfRest<T>(data: seq<T>, cut: nat, from: nat, to: nat)
    requires cut <= |data| && from <= to <= |data| - cut
    ensures data[cut..][from..to] == data[cut + from..cut + to]
  {
  }

  lemma {:induction false} StartShift(i: nat, blockSize: nat)
    ensures Start(i + 1, blockSize) == Start(i, blockSize) + blockSize
  {
  }

  /** Cutting what arrived in full chunks followed by a remainder. */
  lemma {:induction false} CutOfFull(full: seq<seq<Byte>>, pending: seq<Byte>)
    requires forall i :: 0 <= i < |full| ==> |full[i]| == CHUNK
    requires |pending| <= CHUNK && (full != [] ==> pending != [])
    ensures Cut(Flatten(full) + pending) == full + if pending == [] then [] else [pending]
  {
    if full == [] {
      assert Flatten(full) + pending == pending;
    } else {
      var data := Flatten(full) + pending;
      assert data == full[0] + (Flatten(full[1..]) + pending);
      assert data[..CHUNK] == full[0] && data[CHUNK..] == Flatten(full[1..]) + pending;
      CutOfFull(full[1..], pending);
      assert full == [full[0]] + full[1..];
    }
  }

  function HeaderBytes(prefix: seq<Byte>): seq<Byte> {
    MAGIC + [VERSION] + prefix
  }

  function SealedChunk(key: Key, id: seq<Byte>, prefix: seq<Byte>, index: nat, last: bool,
        text: seq<Byte>): (r: seq<Cell>)
    ensures |r| == |text| + TAG
  {
    Seal(key, Nonce(prefix, index), ChunkAad(id, index, last), text)
  }

  /** The first `upTo` chunks, sealed. */
  function SealedChunks(key: Key, id: seq<Byte>, prefix: seq<Byte>, chunks: seq<seq<Byte>>,
        upTo: nat): (r: seq<seq<Cell>>)
    requires upTo <= |chunks|
    ensures |r| == upTo
    ensures forall i {:trigger r[i]} :: 0 <= i < upTo ==>
      r[i] == SealedChunk(key, id, prefix, i, i == |chunks| - 1, chunks[i])
  {
    if upTo == 0 then []
    else SealedChunks(key, id, prefix, chunks, upTo - 1)
         + [SealedChunk(key, id, prefix, upTo - 1, upTo == |chunks|, chunks[upTo - 1])]
  }

  function MetadataBytes(size: nat, count: nat, checksum: seq<Byte>): (r: seq<Byte>)
    ensures |r| == 16 + |checksum|
  {
    BigEndian(size, 8) + BigEndian(count, 8) + checksum
  }

  function SealedRecord(key: Key, id: seq<Byte>, prefix: seq<Byte>, size: nat, count: nat,
        checksum: seq<Byte>): (r: seq<Cell>)
    ensures |r| == 16 + |checksum| + TAG
  {
    Seal(key, Nonce(prefix, MAX_CHUNKS), MetadataAad(id, HeaderBytes(prefix)), MetadataBytes(size, count, checksum))
  }

  ghost predicate Hashes(hash: seq<Byte> -> seq<Byte>) {
    forall data :: |hash(data)| == 32
  }

  /** The file that holds `data`. */
  function ContainerOf(key: Key, id: seq<Byte>, prefix: seq<Byte>, data: seq<Byte>,
        hash: seq<Byte> -> seq<Byte>): seq<Cell> {
    var chunks := Cut(data);
    Plains(HeaderBytes(prefix)) + Flatten(SealedChunks(key, id, prefix, chunks, |chunks|))
    + SealedRecord(key, id, prefix, |data|, |chunks|, hash(data))
  }

  // ----- Writing -----

  lemma {:induction false} LengthOfFull(full: seq<seq<Byte>>)
    requires forall i :: 0 <= i < |full| ==> |full[i]| == CHUNK
    ensures |Flatten(full)| == Start(|full|, CHUNK)
  {
    if full != [] {
      var front := full[..|full| - 1];
      LengthOfFull(front);
      assert full == front + [full[|full| - 1]];
      FlattenSnoc(front, full[|full| - 1]);
    }
  }

  lemma {:induction false} CutCount(data: seq<Byte>, n: nat)
    ensures |Cut(data)| > n <==> |data| > Start(n, CHUNK)
  {
    CutIsChunking(data);
    if |Cut(data)| > n {
      StartMono(n, |Cut(data)| - 1, CHUNK);
    } else {
      StartMono(|Cut(data)|, n, CHUNK);
    }
  }

  /** The chunks sealed before the last one is known: none is marked last. */
  function SealedSoFar(key: Key, id: seq<Byte>, prefix: seq<Byte>, full: seq<seq<Byte>>): seq<Cell> {
    Plains(HeaderBytes(prefix)) + Flatten(SealedChunks(key, id, prefix, full + [[]], |full|))
  }

  lemma {:induction false} OneMoreSealed(key: Key, id: seq<Byte>, prefix: seq<Byte>, full: seq<seq<Byte>>,
        text: seq<Byte>)
    ensures SealedSoFar(key, id, prefix, full + [text])
            == SealedSoFar(key, id, prefix, full) + SealedChunk(key, id, prefix, |full|, false, text)
    ensures Plains(HeaderBytes(prefix)) + Flatten(SealedChunks(key, id, prefix, full + [text], |full| + 1))
            == SealedSoFar(key, id, prefix, full) + SealedChunk(key, id, prefix, |full|, true, text)
  {
    var before := SealedChunks(key, id, prefix, full + [[]], |full|);
    var inner := SealedChunks(key, id, prefix, full + [text] + [[]], |full| + 1);
    var whole := SealedChunks(key, id, prefix, full + [text], |full| + 1);
    assert inner == before + [SealedChunk(key, id, prefix, |full|, false, text)];
    assert whole == before + [SealedChunk(key, id, prefix, |full|, true, text)];
    FlattenSnoc(before, SealedChunk(key, id, prefix, |full|, false, text));
    FlattenSnoc(before, SealedChunk(key, id, prefix, |full|, true, text));
    assert |full + [text]| == |full| + 1;
  }

  lemma {:induction false} NothingSealed(key: Key, id: seq<Byte>, prefix: seq<Byte>, chunks: seq<seq<Byte>>)
    ensures SealedChunks(key, id, prefix, chunks, 0) == [] == SealedChunks(key, id, prefix, [], 0)
  {
  }

  ghost predicate AllFull(full: seq<seq<Byte>>) {
    forall k :: 0 <= k < |full| ==> |full[k]| == CHUNK
  }

  lemma {:induction false} NextFull(full: seq<seq<Byte>>, pending: seq<Byte>)
    requires AllFull(full) && |pending| > CHUNK
    ensures AllFull(full + [pending[..CHUNK]])
    ensures Flatten(full + [pending[..CHUNK]]) + pending[CHUNK..] == Flatten(full) + pending
  {
    FlattenSnoc(full, pending[..CHUNK]);
    assert pending == pending[..CHUNK] + pending[CHUNK..];
  }

  lemma {:induction false} TooMuch(full: seq<seq<Byte>>, pending: seq<Byte>)
    requires AllFull(full) && pending != []
    ensures |Cut(Flatten(full) + pending)| > |full|
  {
    LengthOfFull(full);
    CutCount(Flatten(full) + pending, |full|);
  }

  /** The state of `write_block`: the file so far, the buffer, and the running counts. */
  class BlockWriter {
    const key: Key
    const id: seq<Byte>
    const prefix: seq<Byte>
    var file: seq<Cell>
    var pending: seq<Byte>
    var chunkCount: nat
    var hashed: seq<Byte>
    ghost var full: seq<seq<Byte>>

    ghost predicate Valid()
      reads this
    {
      && file == SealedSoFar(key, id, prefix, full) && chunkCount == |full| <= MAX_CHUNKS
      && AllFull(full) && (full != [] ==> pending != []) && hashed == Flatten(full) + pending
    }

    constructor (key: Key, id: seq<Byte>, prefix: seq<Byte>)
      ensures Valid() && pending == [] && hashed == []
      ensures this.key == key && this.id == id && this.prefix == prefix
    {
      this.key, this.id, this.prefix := key, id, prefix;
      file, pending, chunkCount, hashed, full := Plains(HeaderBytes(prefix)), [], 0, [], [];
    }

    /** The inner `flush`: false when the format has no room for another chunk. */
    method Flush(text: seq<Byte>, last: bool) returns (ok: bool)
      requires chunkCount <= MAX_CHUNKS
      modifies this`file, this`chunkCount
      ensures ok <==> old(chunkCount) < MAX_CHUNKS
      ensures ok ==> chunkCount == old(chunkCount) + 1
      ensures ok ==> file == old(file) + SealedChunk(key, id, prefix, old(chunkCount), last, text)
      ensures !ok ==> file == old(file) && chunkCount == old(chunkCount)
    {
      if chunkCount >= MAX_CHUNKS {
        return false;
      }
      file := file + SealedChunk(key, id, prefix, chunkCount, last, text);
      chunkCount := chunkCount + 1;
      return true;
    }

    /** One incoming piece. */
    method Feed(incoming: seq<Byte>) returns (ok: bool)
      requires Valid() && |pending| <= CHUNK
      modifies this
      ensures hashed == old(hashed) + incoming
      ensures ok ==> Valid() && |pending| <= CHUNK
      ensures !ok ==> |Cut(hashed)| > MAX_CHUNKS
    {
      pending, hashed := pending + incoming, hashed + incoming;
      assert hashed == Flatten(full) + pending;
      while |pending| > CHUNK
        invariant Valid() && hashed == old(hashed) + incoming
        decreases |pending|
      {
        ok := FlushFull();
        if !ok {
          return;
        }
      }
      ok := true;
    }

    /** One turn of the loop: a full chunk leaves the buffer. */
    method FlushFull() returns (ok: bool)
      requires Valid() && |pending| > CHUNK
      modifies this
      ensures hashed == old(hashed)
      ensures ok ==> Valid() && |pending| == |old(pending)| - CHUNK
      ensures !ok ==> |Cut(hashed)| > MAX_CHUNKS
    {
      var text := pending[..CHUNK];
      NextFull(full, pending);
      OneMoreSealed(key, id, prefix, full, text);
      TooMuch(full, pending);
      ok := Flush(text, false);
      if !ok {
        return;
      }
      full, pending := full + [text], pending[CHUNK..];
    }

    /** The chunk left in the buffer, if there is one, is the last. */
    method FlushLast() returns (ok: bool)
      requires Valid()
      modifies this`file, this`chunkCount
      ensures ok <==> pending == [] || |full| < MAX_CHUNKS
      ensures ok ==> chunkCount == |full| + (if pending == [] then 0 else 1)
      ensures ok ==>
                var texts := if pending == [] then full else full + [pending];
                file == Plains(HeaderBytes(prefix)) + Flatten(SealedChunks(key, id, prefix, texts, chunkCount))
    {
      ok := true;
      if pending != [] {
        OneMoreSealed(key, id, prefix, full, pending);
        ok := Flush(pending, true);
      } else {
        NothingSealed(key, id, prefix, full + [[]]);
      }
    }

    /** The last chunk and the metadata. */
    method Finish(hash: seq<Byte> -> seq<Byte>) returns (ok: bool)
      requires Valid() && |pending| <= CHUNK
      modifies this
      ensures hashed == old(hashed)
      ensures ok <==> |Cut(hashed)| <= MAX_CHUNKS
      ensures ok ==> file == ContainerOf(key, id, prefix, hashed, hash)
    {
      CutOfFull(full, pending);
      ok := FlushLast();
      if !ok {
        return;
      }
      file := file + SealedRecord(key, id, prefix, |hashed|, chunkCount, hash(hashed));
      ok := true;
    }
  }

  /** `write_block`: whatever the sizes of the pieces that arrive, the file is the container
      of their concatenation. */
  method WriteBlock(key: Key, id: seq<Byte>, prefix: seq<Byte>, incoming: seq<seq<Byte>>, hash: seq<Byte> -> seq<Byte>)
    returns (r: Result<(seq<Cell>, seq<Byte>, nat)>)
    ensures r.Ok? <==> |Cut(Flatten(incoming))| <= MAX_CHUNKS
    ensures r.Ok? ==>
              var data := Flatten(incoming);
              r.value == (ContainerOf(key, id, prefix, data, hash), hash(data), |data|)
  {
    var writer := new BlockWriter(key, id, prefix);
    for i := 0 to |incoming|
      invariant fresh(writer) && writer.Valid() && |writer.pending| <= CHUNK
      invariant writer.key == key && writer.id == id && writer.prefix == prefix
      invariant writer.hashed == Flatten(incoming[..i])
    {
      assert incoming[..i + 1] == incoming[..i] + [incoming[i]];
      FlattenSnoc(incoming[..i], incoming[i]);
      var ok := writer.Feed(incoming[i]);
      if !ok {
        MoreNeedsMoreChunks(incoming, i + 1);
        return Err(Internal);
      }
    }
    assert incoming[..|incoming|] == incoming;
    var ok := writer.Finish(hash);
    if !ok {
      return Err(Internal);
    }
    return Ok((writer.file, hash(writer.hashed), |writer.hashed|));
  }

  lemma {:induction false} MoreNeedsMoreChunks(incoming: seq<seq<Byte>>, i: nat)
    requires i <= |incoming|
    ensures |Cut(Flatten(incoming))| >= |Cut(Flatten(incoming[..i]))|
  {
    assert incoming == incoming[..i] + incoming[i..];
    FlattenConcat(incoming[..i], incoming[i..]);
    var n := |Cut(Flatten(incoming[..i]))|;
    if n > 0 {
      CutCount(Flatten(incoming[..i]), n - 1);
      CutCount(Flatten(incoming), n - 1);
    }
  }
}
