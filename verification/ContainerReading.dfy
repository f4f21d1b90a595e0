/** Reading a DFSE1 container: the authenticated metadata first, then the chunks a range
    needs. A container written by `write_block` gives back exactly the range; a damaged or
    substituted one gives, before any error, a prefix of a genuine range. */
module ContainerReading {
  import opened Common
  import opened Chunking
  import opened Container

  datatype Metadata = Metadata(prefix: seq<Byte>, size: nat, count: nat, checksum: seq<Byte>)

  /** The bytes of cells that are not sealed. */
  function Unsealed(cells: seq<Cell>): Option<seq<Byte>> {
    if cells == [] then Some([])
    else
      var rest := Unsealed(cells[1..]);
      if cells[0].Plain? && rest.Some? then Some([cells[0].byte] + rest.value) else None
  }

  lemma {:induction false} UnsealedPlains(bytes: seq<Byte>)
    ensures Unsealed(Plains(bytes)) == Some(bytes)
  {
    if bytes != [] {
      UnsealedPlains(bytes[1..]);
      UnsealedMore(bytes[0], bytes[1..]);
      assert bytes == [bytes[0]] + bytes[1..];
    }
  }

  lemma {:induction false} UnsealedMore(first: Byte, rest: seq<Byte>)
    requires Unsealed(Plains(rest)) == Some(rest)
    ensures Unsealed(Plains([first] + rest)) == Some([first] + rest)
  {
    assert ([first] + rest)[1..] == rest;
    assert Plains([first] + rest)[1..] == Plains(rest);
  }

  lemma {:induction false} UnsealedLength(cells: seq<Cell>)
    ensures Unsealed(cells).Some? ==> |Unsealed(cells).value| == |cells|
  {
    if cells != [] {
      UnsealedLength(cells[1..]);
    }
  }

  /** The chunk that holds a byte. */
  function ChunkOf(position: nat): nat {
    position / CHUNK
  }

  lemma {:induction false} ChunkHolds(position: nat)
    ensures Start(ChunkOf(position), CHUNK) <= position < Start(ChunkOf(position) + 1, CHUNK)
  {
    BlockOfPosition(position, CHUNK);
  }

  function ExpectedChunks(size: nat): nat {
    if size == 0 then 0 else ChunkOf(size - 1) + 1
  }

  /** The framing equation of the format. */
  function ExpectedFileSize(size: nat, count: nat): int {
    HEADER + Max(0, count - 1) * SEALED_CHUNK + (if count == 0 then 0 else size - CHUNK * (count - 1) + TAG) + RECORD
  }

  /** `_read_metadata`: nothing is believed that the record does not authenticate. */
  function ReadMetadata(file: seq<Cell>, key: Key, id: seq<Byte>): (r: Option<Metadata>)
    ensures r.Some? ==> r.value.count == ExpectedChunks(r.value.size) <= MAX_CHUNKS
                        && |file| == ExpectedFileSize(r.value.size, r.value.count)
  {
    if |file| < HEADER + RECORD then None
    else
      var header := Unsealed(file[..HEADER]);
      if header.None? || |header.value| != HEADER || header.value[..5] != MAGIC || header.value[5] != VERSION then None
      else
        var prefix := header.value[6..];
        var text := Open(key, Nonce(prefix, MAX_CHUNKS), MetadataAad(id, header.value), file[|file| - RECORD..]);
        if text.None? || |text.value| != METADATA then None
        else
          var size, count := FromBigEndian(text.value[..8]), FromBigEndian(text.value[8..16]);
          if count != ExpectedChunks(size) || count > MAX_CHUNKS || |file| != ExpectedFileSize(size, count) then None
          else Some(Metadata(prefix, size, count, text.value[16..]))
  }

  // ----- The metadata of a genuine container -----

  lemma {:induction false} CountOfCut(data: seq<Byte>)
    ensures |Cut(data)| == ExpectedChunks(|data|)
  {
    CutIsChunking(data);
    if data != [] {
      ChunkHolds(|data| - 1);
      BlockUnique(|Cut(data)| - 1, ChunkOf(|data| - 1), |data| - 1, CHUNK);
    }
  }

  lemma {:induction false} SealedLayout(key: Key, id: seq<Byte>, prefix: seq<Byte>, data: seq<Byte>, i: nat)
    requires i < |Cut(data)|
    ensures var sealed_ := SealedChunks(key, id, prefix, Cut(data), |Cut(data)|);
            && |Flatten(sealed_[..i])| == Start(i, SEALED_CHUNK)
            && |sealed_[i]| == |Cut(data)[i]| + TAG
  {
    var chunks := Cut(data);
    var sealed_ := SealedChunks(key, id, prefix, chunks, |chunks|);
    CutIsChunking(data);
    LayoutOfChunking(chunks, data, CHUNK);
    forall k | 0 <= k < |sealed_| ensures Lengths(sealed_)[k] == Lengths(chunks)[k] + TAG {
      assert sealed_[k] == SealedChunk(key, id, prefix, k, k == |chunks| - 1, chunks[k]);
    }
    assert Layout(Lengths(sealed_), SEALED_CHUNK);
    LayoutPieceSize(sealed_, SEALED_CHUNK, i);
  }

  /** The size of the file satisfies the framing equation. */
  lemma {:induction false} FramingHolds(key: Key, id: seq<Byte>, prefix: seq<Byte>, data: seq<Byte>,
        hash: seq<Byte> -> seq<Byte>)
    requires Hashes(hash) && |prefix| == PREFIX
    ensures |ContainerOf(key, id, prefix, data, hash)| == ExpectedFileSize(|data|, |Cut(data)|)
  {
    assert |hash(data)| == 32;
    SealedSize(key, id, prefix, data);
  }

  lemma {:induction false} SealedSize(key: Key, id: seq<Byte>, prefix: seq<Byte>, data: seq<Byte>)
    ensures var count := |Cut(data)|;
            |Flatten(SealedChunks(key, id, prefix, Cut(data), count))|
            == Max(0, count - 1) * SEALED_CHUNK + (if count == 0 then 0 else |data| - CHUNK * (count - 1) + TAG)
  {
    if data != [] {
      LastChunkSize(data);
      SealedLayout(key, id, prefix, data, |Cut(data)| - 1);
      FlattenedSize(SealedChunks(key, id, prefix, Cut(data), |Cut(data)|), |Cut(data)| - 1, SEALED_CHUNK);
    }
  }

  lemma {:induction false} FlattenedSize<T>(pieces: seq<seq<T>>, last: nat, size: nat)
    requires |pieces| == last + 1 && |Flatten(pieces[..last])| == Start(last, size)
    ensures |Flatten(pieces)| == last * size + |pieces[last]|
  {
    assert pieces == pieces[..last] + [pieces[last]];
    FlattenSnoc(pieces[..last], pieces[last]);
    StartIsProduct(last, size);
  }

  lemma {:induction false} LastChunkSize(data: seq<Byte>)
    requires data != []
    ensures |Cut(data)| > 0 && |Cut(data)[|Cut(data)| - 1]| == |data| - CHUNK * (|Cut(data)| - 1)
  {
    CutIsChunking(data);
    var last := |Cut(data)| - 1;
    assert IsChunk(Cut(data)[last], data, CHUNK, last);
    StartIsProduct(last, CHUNK);
  }

  lemma {:induction false} MetadataRoundTrip(size: nat, count: nat, checksum: seq<Byte>)
    requires size <= Start(MAX_CHUNKS, CHUNK) && count <= MAX_CHUNKS
    ensures var text := MetadataBytes(size, count, checksum);
            FromBigEndian(text[..8]) == size && FromBigEndian(text[8..16]) == count && text[16..] == checksum
  {
    Widths();
    StartIsProduct(MAX_CHUNKS, CHUNK);
    BigEndianRoundTrip(size, 8);
    BigEndianRoundTrip(count, 8);
    var text := MetadataBytes(size, count, checksum);
    assert text[..8] == BigEndian(size, 8) && text[8..16] == BigEndian(count, 8);
  }

  /** A container can be read as what was written. */
  lemma {:induction false} MetadataOfContainer(key: Key, id: seq<Byte>, prefix: seq<Byte>, data: seq<Byte>,
        hash: seq<Byte> -> seq<Byte>)
    requires Hashes(hash) && |prefix| == PREFIX && |Cut(data)| <= MAX_CHUNKS
    ensures ReadMetadata(ContainerOf(key, id, prefix, data, hash), key, id)
            == Some(Metadata(prefix, |data|, |Cut(data)|, hash(data)))
  {
    var file := ContainerOf(key, id, prefix, data, hash);
    var header := HeaderBytes(prefix);
    FramingHolds(key, id, prefix, data, hash);
    CountOfCut(data);
    assert |hash(data)| == 32;
    assert file[..HEADER] == Plains(header);
    UnsealedPlains(header);
    assert header[..5] == MAGIC && header[6..] == prefix;
    var text := MetadataBytes(|data|, |Cut(data)|, hash(data));
    assert file[|file| - RECORD..] == SealedRecord(key, id, prefix, |data|, |Cut(data)|, hash(data));
    OpenSeal(key, Nonce(prefix, MAX_CHUNKS), MetadataAad(id, header), text);
    CutCount(data, MAX_CHUNKS);
    MetadataRoundTrip(|data|, |Cut(data)|, hash(data));
  }

  // ----- Reading chunks -----

  function PlainSize(m: Metadata, index: nat): int {
    if index < m.count - 1 then CHUNK else m.size - CHUNK * (m.count - 1)
  }

  /** What the file gives at a place; less than asked at its end. */
  function ReadAt(file: seq<Cell>, from: nat, count: nat): seq<Cell> {
    file[Min(from, |file|)..Min(from + count, |file|)]
  }

  /** Chunk `index` of a file, if it opens to as many bytes as the metadata says. */
  function ChunkText(file: seq<Cell>, key: Key, id: seq<Byte>, m: Metadata, index: nat): (r: Option<seq<Byte>>)
  {
    if PlainSize(m, index) < 0 then None
    else
      var cells := ReadAt(file, HEADER + Start(index, SEALED_CHUNK), PlainSize(m, index) + TAG);
      var text := Open(key, Nonce(m.prefix, index), ChunkAad(id, index, index == m.count - 1), cells);
      if text.None? || |text.value| != PlainSize(m, index) then None else text
  }

  /** What each chunk of a file opens to. */
  function ChunkTexts(file: seq<Cell>, key: Key, id: seq<Byte>, m: Metadata): nat -> Option<seq<Byte>> {
    (index: nat) => ChunkText(file, key, id, m, index)
  }

  /** The bytes of a stretch, one by one. */
  function Stretch(text: seq<Byte>, from: nat, to: nat): (r: seq<Byte>)
    requires from <= to <= |text|
    ensures |r| == to - from
  {
    seq(to - from, (i: int) requires 0 <= i < to - from => text[from + i])
  }

  lemma {:induction false} StretchIsSlice(text: seq<Byte>, from: nat, to: nat)
    requires from <= to <= |text|
    ensures Stretch(text, from, to) == text[from..to]
  {
  }

  lemma {:induction false} StretchOfTwo(text: seq<Byte>, from: nat, next: nat, to: nat)
    requires from <= next <= to <= |text|
    ensures Stretch(text, from, to) == Stretch(text, from, next) + Stretch(text, next, to)
  {
  }

  /** A stretch of a chunk in pieces of at most `step` bytes. */
  function Slices(text: seq<Byte>, from: nat, to: nat, step: nat): seq<seq<Byte>>
    requires from <= |text| && to <= |text| && step > 0
    decreases if from < to then to - from else 0
  {
    if from >= to then []
    else [Stretch(text, from, Min(from + step, to))] + Slices(text, Min(from + step, to), to, step)
  }

  /** Pieces that hold a byte, and at most `step`. */
  ghost predicate Bounded(pieces: seq<seq<Byte>>, step: nat) {
    forall i :: 0 <= i < |pieces| ==> 1 <= |pieces[i]| <= step
  }

  lemma {:induction false} SlicesFacts(text: seq<Byte>, from: nat, to: nat, step: nat)
    requires from <= to <= |text| && step > 0
    ensures Flatten(Slices(text, from, to, step)) == Stretch(text, from, to)
    ensures Bounded(Slices(text, from, to, step), step)
    decreases if from < to then to - from else 0
  {
    if from < to {
      var next := Min(from + step, to);
      SlicesFacts(text, next, to, step);
      StretchOfTwo(text, from, next, to);
    }
  }

  /** The part of chunk `index` that belongs to the range. */
  function PartFrom(offset: nat, index: nat): nat {
    Max(offset, Start(index, CHUNK)) - Start(index, CHUNK)
  }

  function PartTo(end: nat, index: nat, size: nat): int {
    Min(end, Start(index, CHUNK) + size) - Start(index, CHUNK)
  }

  /** What `read_block` yields from chunk `index` to chunk `last`, and whether it ended well. */
  function ReadChunks(texts: nat -> Option<seq<Byte>>, offset: nat, end: nat, step: nat, index: nat, last: nat)
    : (seq<seq<Byte>>, bool)
    requires step > 0
    decreases last + 1 - index
  {
    if index > last then ([], true)
    else if texts(index).None? then ([], false)
    else
      var rest := ReadChunks(texts, offset, end, step, index + 1, last);
      (PiecesOf(texts(index).value, offset, end, step, index) + rest.0, rest.1)
  }

  function PiecesOf(text: seq<Byte>, offset: nat, end: nat, step: nat, index: nat): seq<seq<Byte>>
    requires step > 0
  {
    var from, to := PartFrom(offset, index), PartTo(end, index, |text|);
    if 0 <= from <= to <= |text| then Slices(text, from, to, step) else []
  }

  lemma {:induction false} PlainSizeIsChunk(m: Metadata, index: nat)
    requires m.count == ExpectedChunks(m.size) && index < m.count
    ensures PlainSize(m, index) == Min(CHUNK, m.size - Start(index, CHUNK)) > 0
  {
    BlockOfPosition(m.size - 1, CHUNK);
    StartIsProduct(m.count - 1, CHUNK);
    StartMono(index, m.count - 1, CHUNK);
    if index < m.count - 1 {
      StartMono(index + 1, m.count - 1, CHUNK);
    }
  }

  // ----- Genuine boxes -----

  /** A block written under some id; `Written` records one such write for each random prefix. */
  datatype Write = Write(id: seq<Byte>, data: seq<Byte>)

  ghost predicate ProperWrites(written: map<seq<Byte>, Write>) {
    forall p :: p in written ==> |p| == PREFIX && |written[p].id| == 32 && |Cut(written[p].data)| <= MAX_CHUNKS
  }

  ghost predicate IsChunkBox(box: Box, key: Key, p: seq<Byte>, w: Write, i: nat) {
    i < |Cut(w.data)| && box == Box(key, Nonce(p, i), ChunkAad(w.id, i, i == |Cut(w.data)| - 1), Cut(w.data)[i])
  }

  ghost predicate IsRecordBox(box: Box, key: Key, p: seq<Byte>, w: Write, hash: seq<Byte> -> seq<Byte>) {
    box == Box(key, Nonce(p, MAX_CHUNKS), MetadataAad(w.id, HeaderBytes(p)),
               MetadataBytes(|w.data|, |Cut(w.data)|, hash(w.data)))
  }

  /** Whatever happened to the file, what is sealed in it under the key was sealed by a write
      of the node: cells may be moved, mixed or replaced, not forged. */
  ghost predicate Honest(file: seq<Cell>, key: Key, written: map<seq<Byte>, Write>, hash: seq<Byte> -> seq<Byte>) {
    forall c :: c in file && c.Sealed? && c.box.key == key ==>
      exists p :: p in written
          && (IsRecordBox(c.box, key, p, written[p], hash) || exists i :: IsChunkBox(c.box, key, p, written[p], i))
  }

  /** A chunk that opens is the chunk of the write whose prefix the header names. */
  lemma {:induction false} OpenedChunkIsGenuine(file: seq<Cell>, key: Key, id: seq<Byte>,
        written: map<seq<Byte>, Write>, hash: seq<Byte> -> seq<Byte>, prefix: seq<Byte>, index: nat, last: bool,
        cells: seq<Cell>)
    requires Honest(file, key, written, hash) && ProperWrites(written) && |prefix| == PREFIX && index < MAX_CHUNKS
    requires (forall c :: c in cells ==> c in file)
    requires Open(key, Nonce(prefix, index), ChunkAad(id, index, last), cells).Some?
    ensures prefix in written && index < |Cut(written[prefix].data)|
    ensures Open(key, Nonce(prefix, index), ChunkAad(id, index, last), cells).value == Cut(written[prefix].data)[index]
  {
    OpenedBox(key, Nonce(prefix, index), ChunkAad(id, index, last), cells);
    var box := cells[0].box;
    assert cells[0] in cells;
    var p :| p in written
        && (IsRecordBox(box, key, p, written[p], hash) || exists i :: IsChunkBox(box, key, p, written[p], i));
    NoncesAreDistinct(p, MAX_CHUNKS, prefix, index);
    var i :| IsChunkBox(box, key, p, written[p], i);
    NoncesAreDistinct(p, i, prefix, index);
  }

  /** Metadata that opens is that of the write whose prefix the header names. */
  lemma {:induction false} ReadMetadataIsGenuine(file: seq<Cell>, key: Key, id: seq<Byte>,
        written: map<seq<Byte>, Write>, hash: seq<Byte> -> seq<Byte>)
    requires Honest(file, key, written, hash) && ProperWrites(written) && |id| == 32 && Hashes(hash)
    requires ReadMetadata(file, key, id).Some?
    ensures var m := ReadMetadata(file, key, id).value;
            && m.prefix in written && written[m.prefix].id == id
            && m.size == |written[m.prefix].data| && m.checksum == hash(written[m.prefix].data)
  {
    var m := ReadMetadata(file, key, id).value;
    var header := Unsealed(file[..HEADER]).value;
    var record := file[|file| - RECORD..];
    var aad := MetadataAad(id, header);
    OpenedBox(key, Nonce(m.prefix, MAX_CHUNKS), aad, record);
    var box := record[0].box;
    assert record[0] in file;
    var p :| p in written
        && (IsRecordBox(box, key, p, written[p], hash) || exists i :: IsChunkBox(box, key, p, written[p], i));
    if i :| IsChunkBox(box, key, p, written[p], i) {
      NoncesAreDistinct(p, i, m.prefix, MAX_CHUNKS);
    }
    assert IsRecordBox(box, key, p, written[p], hash);
    NoncesAreDistinct(p, MAX_CHUNKS, m.prefix, MAX_CHUNKS);
    MetadataAadIsInjective(id, header, written[p].id, HeaderBytes(p));
    CutCount(written[p].data, MAX_CHUNKS);
    MetadataRoundTrip(|written[p].data|, |Cut(written[p].data)|, hash(written[p].data));
  }

  // ----- Ranges -----

  lemma {:induction false} ChunkAt(chunks: seq<seq<Byte>>, data: seq<Byte>, index: nat)
    requires IsChunking(chunks, data, CHUNK) && index < |chunks|
    ensures var start := Start(index, CHUNK);
            && start + |chunks[index]| <= |data| && chunks[index] == data[start..start + |chunks[index]|]
            && |chunks[index]| == Min(CHUNK, |data| - start)
  {
    assert IsChunk(chunks[index], data, CHUNK, index);
  }

  /** The pieces of one chunk are the bytes of the range that fall in it. */
  lemma {:induction false} PiecesAreTheSlice(data: seq<Byte>, text: seq<Byte>, start: nat, offset: nat, end: nat,
        step: nat, index: nat)
    requires start == Start(index, CHUNK) && start + |text| <= |data| && text == data[start..start + |text|]
    requires step > 0 && offset <= end && offset <= start + |text| && start < end
    ensures Bounded(PiecesOf(text, offset, end, step, index), step)
    ensures Max(offset, start) <= Min(end, start + |text|)
    ensures Flatten(PiecesOf(text, offset, end, step, index)) == data[Max(offset, start)..Min(end, start + |text|)]
  {
    var from, to := PartFrom(offset, index), PartTo(end, index, |text|);
    SlicesFacts(text, from, to, step);
    StretchIsSlice(text, from, to);
    SliceOfSlice(data, start, text, from, to);
  }

  lemma {:induction false} SliceOfSlice(data: seq<Byte>, start: nat, text: seq<Byte>, from: nat, to: nat)
    requires start + |text| <= |data| && text == data[start..start + |text|] && from <= to <= |text|
    ensures text[from..to] == data[start + from..start + to]
  {
    forall j | 0 <= j < to - from ensures text[from..to][j] == data[start + from..start + to][j] {
      assert text[from + j] == data[start + from + j];
    }
  }

  /** The part of the range from chunk `index` on. */
  function RestOfRange(data: seq<Byte>, offset: nat, end: nat, index: nat): seq<Byte>
    requires end <= |data|
  {
    data[Min(end, Max(offset, Start(index, CHUNK)))..end]
  }

  lemma {:induction false} JoinRange(here: seq<Byte>, rest: seq<Byte>, data: seq<Byte>, a: nat, b: nat, end: nat)
    requires a <= b <= end <= |data| && here == data[a..b] && rest <= data[b..end]
    ensures here + rest <= data[a..end]
    ensures rest == data[b..end] ==> here + rest == data[a..end]
  {
    assert data[a..end] == data[a..b] + data[b..end];
  }

  /** From chunk `index` on, what is yielded is a prefix of the rest of the range, and all of
      it when the reading ends well. */
  lemma {:induction false} ChunksArePrefix(texts: nat -> Option<seq<Byte>>, chunks: seq<seq<Byte>>, data: seq<Byte>,
        offset: nat, end: nat, step: nat, index: nat, last: nat)
    requires IsChunking(chunks, data, CHUNK) && last < |chunks| && step > 0 && offset <= end <= |data|
    requires index <= last + 1
    requires Start(last, CHUNK) < end <= Start(last + 1, CHUNK)
    requires offset < Start(index + 1, CHUNK) && (index > last ==> end <= Start(index, CHUNK))
    requires forall i :: index <= i <= last ==> OpensTo(texts, chunks, i)
    ensures var got := ReadChunks(texts, offset, end, step, index, last);
            && Bounded(got.0, step)
            && Flatten(got.0) <= RestOfRange(data, offset, end, index)
            && (got.1 ==> Flatten(got.0) == RestOfRange(data, offset, end, index))
    decreases last + 1 - index
  {
    if index <= last {
      StartMono(index, last, CHUNK);
      assert OpensTo(texts, chunks, index);
      if texts(index).Some? {
        ChunksArePrefix(texts, chunks, data, offset, end, step, index + 1, last);
        OneChunkMore(chunks, data, offset, end, step, index, ReadChunks(texts, offset, end, step, index + 1, last).0);
      }
    }
  }

  lemma {:induction false} OneChunkMore(chunks: seq<seq<Byte>>, data: seq<Byte>, offset: nat, end: nat, step: nat,
        index: nat, rest: seq<seq<Byte>>)
    requires IsChunking(chunks, data, CHUNK) && index < |chunks| && step > 0
    requires offset < Start(index + 1, CHUNK) && offset <= end <= |data| && Start(index, CHUNK) < end
    requires Bounded(rest, step) && Flatten(rest) <= RestOfRange(data, offset, end, index + 1)
    ensures var here := PiecesOf(chunks[index], offset, end, step, index);
            && Bounded(here + rest, step)
            && Flatten(here + rest) <= RestOfRange(data, offset, end, index)
            && (Flatten(rest) == RestOfRange(data, offset, end, index + 1) ==>
                  Flatten(here + rest) == RestOfRange(data, offset, end, index))
  {
    ChunkAt(chunks, data, index);
    StartShift(index, CHUNK);
    var start := Start(index, CHUNK);
    PiecesAreTheSlice(data, chunks[index], start, offset, end, step, index);
    JoinPieces(PiecesOf(chunks[index], offset, end, step, index), rest, data, step,
               Max(offset, start), Min(end, start + |chunks[index]|), end);
  }

  lemma {:induction false} JoinPieces(here: seq<seq<Byte>>, rest: seq<seq<Byte>>, data: seq<Byte>, step: nat, a: nat,
        b: nat, end: nat)
    requires a <= b <= end <= |data| && Bounded(here, step) && Bounded(rest, step)
    requires Flatten(here) == data[a..b] && Flatten(rest) <= data[b..end]
    ensures Bounded(here + rest, step) && Flatten(here + rest) <= data[a..end]
    ensures Flatten(rest) == data[b..end] ==> Flatten(here + rest) == data[a..end]
  {
    FlattenConcat(here, rest);
    JoinRange(Flatten(here), Flatten(rest), data, a, b, end);
  }

  /** If chunk `i` opens, it is the one given. */
  ghost predicate OpensTo(texts: nat -> Option<seq<Byte>>, chunks: seq<seq<Byte>>, i: nat) {
    i < |chunks| && (texts(i).Some? ==> texts(i).value == chunks[i])
  }

  // ----- Reading a block -----

  datatype Ending = Finished | BadRange | NotFound | Corrupted

  /** `read_block`: what it yields and how it ends. The path is opened twice, once for the
      metadata and once for the chunks; a rewrite may come between. */
  function BlockRead(metaFile: Option<seq<Cell>>, chunkFile: Option<seq<Cell>>, key: Key, id: seq<Byte>, step: nat,
        offset: int, length: Option<int>): (seq<seq<Byte>>, Ending)
    requires step > 0
  {
    if offset < 0 || (length.Some? && length.value < 0) then ([], BadRange)
    else if metaFile.None? then ([], NotFound)
    else ReadWith(ReadMetadata(metaFile.value, key, id), chunkFile, key, id, step, offset, length)
  }

  /** The reading once the metadata has been checked. */
  function ReadWith(m: Option<Metadata>, chunkFile: Option<seq<Cell>>, key: Key, id: seq<Byte>, step: nat, offset: nat,
                    length: Option<int>): (seq<seq<Byte>>, Ending)
    requires step > 0 && (length.Some? ==> length.value >= 0)
  {
    if m.None? then ([], Corrupted)
    else if chunkFile.None? && offset < m.value.size && length != Some(0) then ([], NotFound)
    else
      RangeRead(if chunkFile.None? then NothingOpens else ChunkTexts(chunkFile.value, key, id, m.value), m.value.size,
                step, offset, length)
  }

  function NothingOpens(index: nat): Option<seq<Byte>> {
    None
  }

  /** The reading of a range, given what the chunks open to. */
  function RangeRead(texts: nat -> Option<seq<Byte>>, size: nat, step: nat, offset: nat,
        length: Option<int>): (seq<seq<Byte>>, Ending)
    requires step > 0 && (length.Some? ==> length.value >= 0)
  {
    if offset >= size || length == Some(0) then ([], Finished)
    else
      var end := RangeEnd(size, offset, length);
      var got := ReadChunks(texts, offset, end, step, ChunkOf(offset), ChunkOf(end - 1));
      (got.0, if got.1 then Finished else Corrupted)
  }

  function RangeEnd(size: nat, offset: nat, length: Option<int>): int {
    if length.None? then size else Min(size, offset + length.value)
  }

  lemma {:induction false} RangeChunks(size: nat, offset: nat, end: int)
    requires offset < end <= size
    ensures ChunkOf(offset) <= ChunkOf(end - 1) < ExpectedChunks(size)
  {
  }

  /** What a block read must be when its chunks, if they open, are those of `data`. */
  ghost predicate ReadsRange(got: (seq<seq<Byte>>, Ending), data: seq<Byte>, step: nat, offset: nat,
        length: Option<int>) {
    var from := Min(offset, |data|);
    var range := data[from..Min(|data|, Max(from, RangeEnd(|data|, from, length)))];
    Bounded(got.0, step) && Flatten(got.0) <= range && (got.1 == Finished ==> Flatten(got.0) == range)
  }

  /** What was read of the chunks that the range touches. */
  lemma {:induction false} SpanReadsRange(texts: nat -> Option<seq<Byte>>, step: nat, offset: nat, length: Option<int>,
        data: seq<Byte>, end: nat)
    requires step > 0 && (length.Some? ==> length.value >= 0) && end == RangeEnd(|data|, offset, length)
    requires offset < end <= |data| && OpenToCut(texts, data)
    ensures var got := ReadChunks(texts, offset, end, step, ChunkOf(offset), ChunkOf(end - 1));
            ReadsRange((got.0, if got.1 then Finished else Corrupted), data, step, offset, length)
  {
    ChunkHolds(offset);
    ChunkHolds(end - 1);
    RangeChunks(|data|, offset, end);
    CountOfCut(data);
    CutIsChunking(data);
    ChunksArePrefix(texts, Cut(data), data, offset, end, step, ChunkOf(offset), ChunkOf(end - 1));
    assert RestOfRange(data, offset, end, ChunkOf(offset)) == data[offset..end];
  }

  /** What opens is the data, cut. */
  ghost predicate OpenToCut(texts: nat -> Option<seq<Byte>>, data: seq<Byte>) {
    forall i :: 0 <= i < |Cut(data)| ==> OpensTo(texts, Cut(data), i)
  }

  lemma {:induction false} RangeReadsRange(texts: nat -> Option<seq<Byte>>, step: nat, offset: nat, length: Option<int>,
        data: seq<Byte>)
    requires step > 0 && (length.Some? ==> length.value >= 0) && OpenToCut(texts, data)
    ensures ReadsRange(RangeRead(texts, |data|, step, offset, length), data, step, offset, length)
  {
    if offset < |data| && length != Some(0) {
      SpanReadsRange(texts, step, offset, length, data, RangeEnd(|data|, offset, length));
    }
  }

  /** A reading whose chunks all open ends well. */
  lemma {:induction false} OpenRangeFinishes(texts: nat -> Option<seq<Byte>>, size: nat, step: nat, offset: nat,
        length: Option<int>)
    requires step > 0 && (length.Some? ==> length.value >= 0)
    requires forall i: nat :: i < ExpectedChunks(size) ==> texts(i).Some?
    ensures RangeRead(texts, size, step, offset, length).1 == Finished
  {
    if offset < size && length != Some(0) {
      var end := RangeEnd(size, offset, length);
      RangeChunks(size, offset, end);
      AllOpen(texts, offset, end, step, ChunkOf(offset), ChunkOf(end - 1));
    }
  }

  /** Before any error, whatever was done to the files, what is yielded is a prefix of the
      range of a block really written under this id; if the reading ends well, the range. */
  lemma {:induction false} OnlyGenuineBytes(metaFile: seq<Cell>, chunkFile: seq<Cell>, key: Key, id: seq<Byte>,
        step: nat, offset: nat, length: Option<int>, written: map<seq<Byte>, Write>, hash: seq<Byte> -> seq<Byte>)
    requires Honest(metaFile, key, written, hash) && Honest(chunkFile, key, written, hash) && ProperWrites(written)
    requires |id| == 32 && Hashes(hash) && step > 0 && (length.Some? ==> length.value >= 0)
    requires ReadMetadata(metaFile, key, id).Some?
    ensures var p := ReadMetadata(metaFile, key, id).value.prefix;
            && p in written && written[p].id == id
            && ReadsRange(BlockRead(Some(metaFile), Some(chunkFile), key, id, step, offset, length), written[p].data,
                          step, offset, length)
  {
    var m := ReadMetadata(metaFile, key, id).value;
    ReadMetadataIsGenuine(metaFile, key, id, written, hash);
    var texts := ChunkTexts(chunkFile, key, id, m);
    CountOfCut(written[m.prefix].data);
    forall i | 0 <= i < m.count ensures OpensTo(texts, Cut(written[m.prefix].data), i) {
      ChunkIsGenuine(chunkFile, key, id, m, written, hash, i);
    }
    RangeReadsRange(texts, step, offset, length, written[m.prefix].data);
    BlockReadIsRangeRead(metaFile, chunkFile, key, id, step, offset, length, m);
  }

  lemma {:induction false} BlockReadIsRangeRead(metaFile: seq<Cell>, chunkFile: seq<Cell>, key: Key, id: seq<Byte>,
        step: nat, offset: nat, length: Option<int>, m: Metadata)
    requires step > 0 && (length.Some? ==> length.value >= 0) && ReadMetadata(metaFile, key, id) == Some(m)
    ensures BlockRead(Some(metaFile), Some(chunkFile), key, id, step, offset, length)
            == RangeRead(ChunkTexts(chunkFile, key, id, m), m.size, step, offset, length)
  {
  }

  lemma {:induction false} ChunkIsGenuine(file: seq<Cell>, key: Key, id: seq<Byte>, m: Metadata,
        written: map<seq<Byte>, Write>, hash: seq<Byte> -> seq<Byte>, i: nat)
    requires Honest(file, key, written, hash) && ProperWrites(written) && |id| == 32
    requires m.prefix in written && m.size == |written[m.prefix].data| && m.count == ExpectedChunks(m.size)
    requires i < m.count
    ensures OpensTo(ChunkTexts(file, key, id, m), Cut(written[m.prefix].data), i)
  {
    PlainSizeIsChunk(m, i);
    CountOfCut(written[m.prefix].data);
    if ChunkText(file, key, id, m, i).Some? {
      var cells := ReadAt(file, HEADER + Start(i, SEALED_CHUNK), PlainSize(m, i) + TAG);
      OpenedChunkIsGenuine(file, key, id, written, hash, m.prefix, i, i == m.count - 1, cells);
    }
  }

  // ----- The round trip -----

  lemma {:induction false} ChunkInContainer(key: Key, id: seq<Byte>, prefix: seq<Byte>, data: seq<Byte>,
        hash: seq<Byte> -> seq<Byte>, i: nat)
    requires |prefix| == PREFIX && i < |Cut(data)|
    ensures ReadAt(ContainerOf(key, id, prefix, data, hash), HEADER + Start(i, SEALED_CHUNK), |Cut(data)[i]| + TAG)
            == SealedChunk(key, id, prefix, i, i == |Cut(data)| - 1, Cut(data)[i])
  {
    var chunks := Cut(data);
    var sealed_ := SealedChunks(key, id, prefix, chunks, |chunks|);
    SealedLayout(key, id, prefix, data, i);
    FlattenSlice(sealed_, i);
    ReadInside(Plains(HeaderBytes(prefix)), Flatten(sealed_),
               SealedRecord(key, id, prefix, |data|, |chunks|, hash(data)),
               Start(i, SEALED_CHUNK), |sealed_[i]|);
  }

  lemma {:induction false} ChunkOfContainer(key: Key, id: seq<Byte>, prefix: seq<Byte>, data: seq<Byte>,
        hash: seq<Byte> -> seq<Byte>, m: Metadata, i: nat)
    requires m == Metadata(prefix, |data|, |Cut(data)|, hash(data)) && |prefix| == PREFIX && i < |Cut(data)|
    ensures ChunkText(ContainerOf(key, id, prefix, data, hash), key, id, m, i) == Some(Cut(data)[i])
  {
    CountOfCut(data);
    PlainSizeIsChunk(m, i);
    CutIsChunking(data);
    ChunkAt(Cut(data), data, i);
    ChunkInContainer(key, id, prefix, data, hash, i);
    SealedChunkOpens(ContainerOf(key, id, prefix, data, hash), key, id, m, i, Cut(data)[i]);
  }

  lemma {:induction false} SealedChunkOpens(file: seq<Cell>, key: Key, id: seq<Byte>, m: Metadata, i: nat,
        text: seq<Byte>)
    requires PlainSize(m, i) == |text|
    requires ReadAt(file, HEADER + Start(i, SEALED_CHUNK), |text| + TAG)
               == SealedChunk(key, id, m.prefix, i, i == m.count - 1, text)
    ensures ChunkText(file, key, id, m, i) == Some(text)
  {
    OpenSeal(key, Nonce(m.prefix, i), ChunkAad(id, i, i == m.count - 1), text);
  }

  lemma {:induction false} ReadInside(before: seq<Cell>, middle: seq<Cell>, after: seq<Cell>, from: nat, size: nat)
    requires from + size <= |middle|
    ensures ReadAt(before + middle + after, |before| + from, size) == middle[from..from + size]
  {
  }

  lemma {:induction false} AllOpen(texts: nat -> Option<seq<Byte>>, offset: nat, end: nat, step: nat, index: nat,
        last: nat)
    requires step > 0 && forall i :: index <= i <= last ==> texts(i).Some?
    ensures ReadChunks(texts, offset, end, step, index, last).1
    decreases last + 1 - index
  {
    if index <= last {
      AllOpen(texts, offset, end, step, index + 1, last);
    }
  }

  /** Reading back any range of a block just written gives exactly that range, in pieces no
      longer than asked, however the block arrived. */
  lemma {:induction false} ReadOfWritten(key: Key, id: seq<Byte>, prefix: seq<Byte>, data: seq<Byte>,
        hash: seq<Byte> -> seq<Byte>, step: nat, offset: nat, length: Option<int>)
    requires Hashes(hash) && |prefix| == PREFIX && |Cut(data)| <= MAX_CHUNKS && step > 0
    requires length.Some? ==> length.value >= 0
    ensures var file := ContainerOf(key, id, prefix, data, hash);
            var got := BlockRead(Some(file), Some(file), key, id, step, offset, length);
            got.1 == Finished && ReadsRange(got, data, step, offset, length)
  {
    var m := Metadata(prefix, |data|, |Cut(data)|, hash(data));
    var file := ContainerOf(key, id, prefix, data, hash);
    MetadataOfContainer(key, id, prefix, data, hash);
    TextsOfContainer(key, id, prefix, data, hash, m);
    CountOfCut(data);
    RangeReadsRange(ChunkTexts(file, key, id, m), step, offset, length, data);
    OpenRangeFinishes(ChunkTexts(file, key, id, m), |data|, step, offset, length);
    BlockReadIsRangeRead(file, file, key, id, step, offset, length, m);
  }

  lemma {:induction false} TextsOfContainer(key: Key, id: seq<Byte>, prefix: seq<Byte>, data: seq<Byte>,
        hash: seq<Byte> -> seq<Byte>, m: Metadata)
    requires m == Metadata(prefix, |data|, |Cut(data)|, hash(data)) && |prefix| == PREFIX
    ensures var texts := ChunkTexts(ContainerOf(key, id, prefix, data, hash), key, id, m);
            OpenToCut(texts, data) && forall i: nat :: i < |Cut(data)| ==> texts(i).Some?
  {
    var texts := ChunkTexts(ContainerOf(key, id, prefix, data, hash), key, id, m);
    forall i: nat | i < |Cut(data)| ensures texts(i) == Some(Cut(data)[i]) {
      ChunkOfContainer(key, id, prefix, data, hash, m, i);
    }
  }

  // ----- The reading loop -----

  lemma {:induction false} SlicesSnoc(text: seq<Byte>, from: nat, at: nat, to: nat, step: nat, done: seq<seq<Byte>>)
    requires from <= at < to <= |text| && step > 0
    requires Slices(text, from, to, step) == done + Slices(text, at, to, step)
    ensures Slices(text, from, to, step)
              == done + [Stretch(text, at, Min(at + step, to))] + Slices(text, Min(at + step, to), to, step)
  {
  }

  /** `yield`ing a stretch of a chunk piece by piece. */
  method YieldPieces(text: seq<Byte>, from: nat, to: nat, step: nat) returns (pieces: seq<seq<Byte>>)
    requires from <= to <= |text| && step > 0
    ensures pieces == Slices(text, from, to, step)
  {
    pieces := [];
    var at := from;
    while at < to
      invariant from <= at <= to
      invariant Slices(text, from, to, step) == pieces + Slices(text, at, to, step)
    {
      SlicesSnoc(text, from, at, to, step, pieces);
      StretchIsSlice(text, at, Min(at + step, to));
      pieces := pieces + [text[at..Min(at + step, to)]];
      at := Min(at + step, to);
    }
  }

  /** `read_block`. */
  method ReadBlock(metaFile: Option<seq<Cell>>, chunkFile: Option<seq<Cell>>, key: Key, id: seq<Byte>, step: nat,
        offset: int, length: Option<int>) returns (pieces: seq<seq<Byte>>, ending: Ending)
    requires step > 0
    ensures (pieces, ending) == BlockRead(metaFile, chunkFile, key, id, step, offset, length)
  {
    if offset < 0 || (length.Some? && length.value < 0) {
      return [], BadRange;
    }
    if metaFile.None? {
      return [], NotFound;
    }
    pieces, ending := ReadAfterMetadata(ReadMetadata(metaFile.value, key, id), chunkFile, key, id, step, offset,
                                        length);
  }

  method ReadAfterMetadata(found: Option<Metadata>, chunkFile: Option<seq<Cell>>, key: Key, id: seq<Byte>, step: nat,
        offset: nat, length: Option<int>) returns (pieces: seq<seq<Byte>>, ending: Ending)
    requires step > 0 && (length.Some? ==> length.value >= 0)
    requires found.Some? ==> found.value.count == ExpectedChunks(found.value.size)
    ensures (pieces, ending) == ReadWith(found, chunkFile, key, id, step, offset, length)
  {
    if found.None? {
      return [], Corrupted;
    }
    var m := found.value;
    if offset >= m.size || length == Some(0) {
      return [], Finished;
    }
    if chunkFile.None? {
      return [], NotFound;
    }
    pieces, ending := ReadNonEmpty(chunkFile.value, key, id, m, offset, length, step,
                                   ChunkTexts(chunkFile.value, key, id, m));
  }

  /** A range that holds a byte. */
  method ReadNonEmpty(file: seq<Cell>, key: Key, id: seq<Byte>, m: Metadata, offset: nat, length: Option<int>,
        step: nat, ghost texts: nat -> Option<seq<Byte>>) returns (pieces: seq<seq<Byte>>, ending: Ending)
    requires m.count == ExpectedChunks(m.size) && step > 0 && Describes(texts, file, key, id, m)
    requires offset < m.size && (length.Some? ==> length.value > 0)
    ensures (pieces, ending) == RangeRead(texts, m.size, step, offset, length)
  {
    var end := if length.None? then m.size else Min(m.size, offset + length.value);
    var good;
    pieces, good := ReadRange(file, key, id, m, offset, end, step, texts);
    ending := if good then Finished else Corrupted;
  }

  /** Reading, opening and checking one chunk. */
  method OpenChunk(file: seq<Cell>, key: Key, id: seq<Byte>, m: Metadata, index: nat) returns (text: Option<seq<Byte>>)
    requires m.count == ExpectedChunks(m.size) && index < m.count
    ensures text == ChunkText(file, key, id, m, index)
    ensures text.Some? ==> |text.value| == PlainSize(m, index)
  {
    PlainSizeIsChunk(m, index);
    var size := if index < m.count - 1 then CHUNK else m.size - CHUNK * (m.count - 1);
    StartIsProduct(index, SEALED_CHUNK);
    var cells := ReadAt(file, HEADER + index * SEALED_CHUNK, size + TAG);
    if |cells| != size + TAG {
      return None;
    }
    text := Open(key, Nonce(m.prefix, index), ChunkAad(id, index, index == m.count - 1), cells);
    if text.None? || |text.value| != size {
      return None;
    }
  }

  /** The loop over the chunks of the range. */
  method ReadRange(file: seq<Cell>, key: Key, id: seq<Byte>, m: Metadata, offset: nat, end: nat, step: nat,
                   ghost texts: nat -> Option<seq<Byte>>) returns (pieces: seq<seq<Byte>>, good: bool)
    requires m.count == ExpectedChunks(m.size) && step > 0 && offset < end <= m.size
    requires Describes(texts, file, key, id, m)
    ensures (pieces, good) == ReadChunks(texts, offset, end, step, ChunkOf(offset), ChunkOf(end - 1))
  {
    RangeChunks(m.size, offset, end);
    ChunkHolds(offset);
    ChunkHolds(end - 1);
    var first, last := offset / CHUNK, (end - 1) / CHUNK;
    ghost var reading := (i: nat) => ReadChunks(texts, offset, end, step, i, last);
    ReadingUnfolds(texts, offset, end, step, first, last, reading);
    pieces, good := ReadSpan(file, key, id, m, offset, end, step, first, last, texts, reading);
  }

  /** `reading` gives what is read from each chunk on. */
  ghost predicate Unfolds(texts: nat -> Option<seq<Byte>>, offset: nat, end: nat, step: nat, first: nat, last: nat,
                          reading: nat -> (seq<seq<Byte>>, bool))
    requires step > 0
  {
    && reading(last + 1) == ([], true)
    && forall i {:trigger texts(i)} :: first <= i <= last ==>
         reading(i) == if texts(i).None? then ([], false)
                       else (PiecesOf(texts(i).value, offset, end, step, i) + reading(i + 1).0, reading(i + 1).1)
  }

  lemma {:induction false} ReadingUnfolds(texts: nat -> Option<seq<Byte>>, offset: nat, end: nat, step: nat, first: nat,
        last: nat, reading: nat -> (seq<seq<Byte>>, bool))
    requires step > 0 && forall i :: reading(i) == ReadChunks(texts, offset, end, step, i, last)
    ensures Unfolds(texts, offset, end, step, first, last, reading)
  {
  }

  /** `texts` says what the chunks of the file open to. */
  ghost predicate Describes(texts: nat -> Option<seq<Byte>>, file: seq<Cell>, key: Key, id: seq<Byte>, m: Metadata) {
    forall i {:trigger ChunkText(file, key, id, m, i)} :: 0 <= i < m.count ==>
        texts(i) == ChunkText(file, key, id, m, i)
  }

  method ReadSpan(file: seq<Cell>, key: Key, id: seq<Byte>, m: Metadata, offset: nat, end: nat, step: nat, first: nat,
        last: nat, ghost texts: nat -> Option<seq<Byte>>, ghost reading: nat -> (seq<seq<Byte>>, bool))
    returns (pieces: seq<seq<Byte>>, good: bool)
    requires m.count == ExpectedChunks(m.size) && step > 0 && offset < end <= m.size && first <= last < m.count
    requires Start(first, CHUNK) <= offset < Start(first + 1, CHUNK)
    requires Start(last, CHUNK) < end <= Start(last + 1, CHUNK)
    requires Describes(texts, file, key, id, m) && Unfolds(texts, offset, end, step, first, last, reading)
    ensures (pieces, good) == reading(first)
  {
    pieces := [];
    for index := first to last + 1
      invariant reading(first).0 == pieces + reading(index).0 && reading(first).1 == reading(index).1
    {
      var here := ReadChunk(file, key, id, m, offset, end, step, first, last, index, texts);
      if here.None? {
        assert pieces + [] == pieces;
        return pieces, false;
      }
      assert pieces + (here.value + reading(index + 1).0) == (pieces + here.value) + reading(index + 1).0;
      pieces := pieces + here.value;
    }
    assert pieces + [] == pieces;
    good := true;
  }

  /** One turn of the loop. */
  method ReadChunk(file: seq<Cell>, key: Key, id: seq<Byte>, m: Metadata, offset: nat, end: nat, step: nat, first: nat,
        last: nat, index: nat, ghost texts: nat -> Option<seq<Byte>>) returns (here: Option<seq<seq<Byte>>>)
    requires m.count == ExpectedChunks(m.size) && first <= index <= last < m.count && step > 0 && offset < end <= m.size
    requires Start(first, CHUNK) <= offset < Start(first + 1, CHUNK)
    requires Start(last, CHUNK) < end <= Start(last + 1, CHUNK)
    requires Describes(texts, file, key, id, m)
    ensures here.None? <==> texts(index).None?
    ensures here.Some? ==> here.value == PiecesOf(texts(index).value, offset, end, step, index)
  {
    var text := OpenChunk(file, key, id, m, index);
    if text.None? {
      return None;
    }
    var pieces := ReadInChunk(text.value, m, offset, end, step, first, last, index);
    return Some(pieces);
  }

  /** The part of one chunk: from the offset in the first, to the end in the last. */
  method ReadInChunk(text: seq<Byte>, m: Metadata, offset: nat, end: nat, step: nat, first: nat, last: nat, index: nat)
    returns (here: seq<seq<Byte>>)
    requires m.count == ExpectedChunks(m.size) && first <= index <= last < m.count && |text| == PlainSize(m, index)
    requires step > 0
    requires Start(first, CHUNK) <= offset < Start(first + 1, CHUNK)
    requires Start(last, CHUNK) < end <= Start(last + 1, CHUNK)
    requires offset < end <= m.size
    ensures here == PiecesOf(text, offset, end, step, index)
  {
    InChunk(m, offset, end, first, last, index, |text|);
    var base := BlockBase(index);
    var startInChunk := if index == first then offset - base else 0;
    var endInChunk := if index == last then end - base else |text|;
    here := YieldPieces(text, startInChunk, endInChunk, step);
  }

  method BlockBase(index: nat) returns (r: nat)
    ensures r == Start(index, CHUNK)
  {
    StartIsProduct(index, CHUNK);
    r := index * CHUNK;
  }

  /** The first chunk is entered at the offset, the last left at the end, others whole. */
  lemma {:induction false} InChunk(m: Metadata, offset: nat, end: nat, first: nat, last: nat, index: nat, size: nat)
    requires m.count == ExpectedChunks(m.size) && first <= index <= last < m.count && size == PlainSize(m, index)
    requires Start(first, CHUNK) <= offset < Start(first + 1, CHUNK)
    requires Start(last, CHUNK) < end <= Start(last + 1, CHUNK)
    requires offset < end <= m.size
    ensures PartFrom(offset, index) == (if index == first then offset - Start(index, CHUNK) else 0)
    ensures PartTo(end, index, size) == (if index == last then end - Start(index, CHUNK) else size)
    ensures PartFrom(offset, index) <= PartTo(end, index, size) <= size
  {
    PlainSizeIsChunk(m, index);
    if first < index {
      StartMono(first + 1, index, CHUNK);
    }
    if index < last {
      StartMono(index + 1, last, CHUNK);
    }
  }
}
