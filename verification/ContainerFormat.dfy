/** The DFSE1 format, byte by byte, and what a reader makes of any file: which files it
    believes, which chunks it opens, how each reading ends and into which pieces it is cut. */
module ContainerFormat {
  import opened Common
  import opened Chunking
  import opened Container
  import opened ContainerReading

  // ----- The bytes -----

  /** Four bytes, the most significant first. */
  function FourBytes(n: nat): seq<Byte> {
    [(n / 16_777_216 % 256) as Byte, (n / 65_536 % 256) as Byte, (n / 256 % 256) as Byte, (n % 256) as Byte]
  }

  function EightBytes(n: nat): seq<Byte> {
    FourBytes(n / 4_294_967_296) + FourBytes(n)
  }

  lemma {:induction false} FourBytesExactly(n: nat)
    ensures BigEndian(n, 4) == FourBytes(n)
  {
    assert n / 256 / 256 == n / 65_536 && n / 256 / 256 / 256 == n / 16_777_216;
    assert BigEndian(n / 256 / 256 / 256 / 256, 0) == [];
    assert BigEndian(n / 256 / 256 / 256, 1) == [(n / 16_777_216 % 256) as Byte];
    assert BigEndian(n / 256 / 256, 2) == BigEndian(n / 256 / 256 / 256, 1) + [(n / 65_536 % 256) as Byte];
    assert BigEndian(n / 256, 3) == BigEndian(n / 256 / 256, 2) + [(n / 256 % 256) as Byte];
  }

  lemma {:induction false} EightBytesExactly(n: nat)
    ensures BigEndian(n, 8) == EightBytes(n)
  {
    FourBytesExactly(n);
    FourBytesExactly(n / 4_294_967_296);
    HighAndLow(n);
  }

  lemma {:induction false} HighAndLow(n: nat)
    ensures BigEndian(n, 8) == BigEndian(n / 4_294_967_296, 4) + BigEndian(n, 4)
  {
    var a, b, c, d := n / 256, n / 256 / 256, n / 256 / 256 / 256, n / 256 / 256 / 256 / 256;
    assert d == n / 4_294_967_296;
    assert BigEndian(n, 8) == BigEndian(a, 7) + [(n % 256) as Byte];
    assert BigEndian(a, 7) == BigEndian(b, 6) + [(a % 256) as Byte];
    assert BigEndian(b, 6) == BigEndian(c, 5) + [(b % 256) as Byte];
    assert BigEndian(c, 5) == BigEndian(d, 4) + [(c % 256) as Byte];
    assert BigEndian(n, 4) == BigEndian(a, 3) + [(n % 256) as Byte];
    assert BigEndian(a, 3) == BigEndian(b, 2) + [(a % 256) as Byte];
    assert BigEndian(b, 2) == BigEndian(c, 1) + [(b % 256) as Byte];
    assert BigEndian(c, 1) == BigEndian(d, 0) + [(c % 256) as Byte];
  }

  /** `DFSE1`, the version and the random prefix. */
  function HeaderText(prefix: seq<Byte>): seq<Byte> {
    [68, 70, 83, 69, 49, 1] + prefix
  }

  /** What a chunk is sealed under. */
  function ChunkNonce(prefix: seq<Byte>, index: nat): seq<Byte> { prefix + FourBytes(index) }

  function ChunkLabel(id: seq<Byte>, index: nat, last: bool): seq<Byte> {
    id + FourBytes(index) + [if last then 1 else 0]
  }

  /** What the final record is sealed under: the one counter that no chunk has, and the text
      `metadata` with the header. */
  function RecordNonce(prefix: seq<Byte>): seq<Byte> { prefix + [255, 255, 255, 255] }

  function RecordLabel(id: seq<Byte>, prefix: seq<Byte>): seq<Byte> {
    id + [109, 101, 116, 97, 100, 97, 116, 97] + HeaderText(prefix)
  }

  lemma {:induction false} LabelsExactly(id: seq<Byte>, prefix: seq<Byte>, index: nat, last: bool)
    ensures Nonce(prefix, index) == ChunkNonce(prefix, index)
    ensures ChunkAad(id, index, last) == ChunkLabel(id, index, last)
    ensures Nonce(prefix, MAX_CHUNKS) == RecordNonce(prefix) && HeaderBytes(prefix) == HeaderText(prefix)
    ensures MetadataAad(id, HeaderBytes(prefix)) == RecordLabel(id, prefix)
  {
    FourBytesExactly(index);
    FourBytesExactly(4_294_967_295);
    assert FourBytes(4_294_967_295) == [255, 255, 255, 255];
    assert MAGIC + [VERSION] == [68, 70, 83, 69, 49, 1];
  }

  /** The bytes of one sealed text, with their 16 of tag. */
  ghost predicate SealedAt(file: seq<Cell>, from: nat, key: Key, nonce: seq<Byte>, aad: seq<Byte>, text: seq<Byte>) {
    && from + |text| + 16 <= |file|
    && forall j: nat :: j < |text| + 16 ==> file[from + j] == Sealed(Box(key, nonce, aad, text), j)
  }

  ghost predicate StartsWith(file: seq<Cell>, bytes: seq<Byte>) {
    |file| >= |bytes| && forall j :: 0 <= j < |bytes| ==> file[j] == Plain(bytes[j])
  }

  lemma {:induction false} OpensIff(key: Key, nonce: seq<Byte>, aad: seq<Byte>, cells: seq<Cell>, text: seq<Byte>)
    ensures Open(key, nonce, aad, cells) == Some(text) <==>
            |cells| == |text| + 16 && SealedAt(cells, 0, key, nonce, aad, text)
  {
    if |cells| == |text| + 16 && SealedAt(cells, 0, key, nonce, aad, text) {
      assert cells == Seal(key, nonce, aad, text);
    }
  }

  // ----- What is written -----

  lemma {:induction false} SealedIsSealedAt(before: seq<Cell>, after: seq<Cell>, key: Key, nonce: seq<Byte>,
        aad: seq<Byte>, text: seq<Byte>)
    ensures SealedAt(before + Seal(key, nonce, aad, text) + after, |before|, key, nonce, aad, text)
  {
  }

  lemma {:induction false} ReadIsSealedAt(file: seq<Cell>, from: nat, key: Key, nonce: seq<Byte>, aad: seq<Byte>,
        text: seq<Byte>)
    ensures SealedAt(file, from, key, nonce, aad, text) <==>
            ReadAt(file, from, |text| + 16) == Seal(key, nonce, aad, text)
  {
    var read, seal := ReadAt(file, from, |text| + 16), Seal(key, nonce, aad, text);
    if read == seal {
      forall j: nat | j < |text| + 16 ensures file[from + j] == Sealed(Box(key, nonce, aad, text), j) {
        assert read[j] == seal[j];
      }
    }
  }

  /** Chunk `i` of some data. */
  function Piece(data: seq<Byte>, i: nat): seq<Byte>
    requires i * 1_048_576 <= |data|
  {
    data[i * 1_048_576..Min(|data|, (i + 1) * 1_048_576)]
  }

  function CountFor(size: nat): nat { (size + 1_048_575) / 1_048_576 }

  lemma {:induction false} CountExactly(size: nat)
    ensures ExpectedChunks(size) == CountFor(size)
  {
  }

  lemma {:induction false} CutExactly(data: seq<Byte>, i: nat)
    ensures |Cut(data)| == CountFor(|data|)
    ensures i < |Cut(data)| ==> i * 1_048_576 < |data| && Cut(data)[i] == Piece(data, i)
  {
    CutIsChunking(data);
    CountOfCut(data);
    CountExactly(|data|);
    if i < |Cut(data)| {
      StartIsProduct(i, CHUNK);
      StartIsProduct(i + 1, CHUNK);
      assert IsChunk(Cut(data)[i], data, CHUNK, i);
    }
  }

  /** The file a block is kept in, from its first byte to its last. */
  lemma {:induction false} ContainerExactly(key: Key, id: seq<Byte>, prefix: seq<Byte>, data: seq<Byte>,
        hash: seq<Byte> -> seq<Byte>)
    requires Hashes(hash) && |prefix| == 8
    ensures var file, count := ContainerOf(key, id, prefix, data, hash), CountFor(|data|);
            && |file| == 14 + |data| + 16 * count + 64 && StartsWith(file, HeaderText(prefix))
            && (forall i: nat :: i < count ==> HoldsPiece(file, key, id, prefix, data, i))
            && SealedAt(file, |file| - 64, key, RecordNonce(prefix), RecordLabel(id, prefix),
                        EightBytes(|data|) + EightBytes(count) + hash(data))
  {
    var file, count := ContainerOf(key, id, prefix, data, hash), CountFor(|data|);
    CutExactly(data, 0);
    FramingHolds(key, id, prefix, data, hash);
    FramingExactly(|data|, count);
    LabelsExactly(id, prefix, 0, false);
    EightBytesExactly(|data|);
    EightBytesExactly(count);
    assert |hash(data)| == 32;
    forall i: nat | i < count ensures HoldsPiece(file, key, id, prefix, data, i) {
      CutExactly(data, i);
      ChunkInContainer(key, id, prefix, data, hash, i);
      PieceExactly(file, key, id, prefix, data, i);
    }
    var sealed_ := Flatten(SealedChunks(key, id, prefix, Cut(data), |Cut(data)|));
    RecordIsLast(Plains(HeaderBytes(prefix)), sealed_, key, id, prefix, |data|, count, hash(data));
  }

  /** Chunk `i` lies where the equal sizes of those before put it. */
  ghost predicate HoldsPiece(file: seq<Cell>, key: Key, id: seq<Byte>, prefix: seq<Byte>, data: seq<Byte>, i: nat) {
    && i * 1_048_576 <= |data|
    && SealedAt(file, 14 + i * 1_048_592, key, ChunkNonce(prefix, i), ChunkLabel(id, i, i == CountFor(|data|) - 1),
                Piece(data, i))
  }

  lemma {:induction false} PieceExactly(file: seq<Cell>, key: Key, id: seq<Byte>, prefix: seq<Byte>, data: seq<Byte>,
        i: nat)
    requires i * 1_048_576 <= |data|
    requires ReadAt(file, HEADER + Start(i, SEALED_CHUNK), |Piece(data, i)| + TAG)
             == SealedChunk(key, id, prefix, i, i == CountFor(|data|) - 1, Piece(data, i))
    ensures HoldsPiece(file, key, id, prefix, data, i)
  {
    ChunkIsAt(file, key, id, prefix, i, i == CountFor(|data|) - 1, Piece(data, i));
  }

  lemma {:induction false} ChunkIsAt(file: seq<Cell>, key: Key, id: seq<Byte>, prefix: seq<Byte>, i: nat, last: bool,
        text: seq<Byte>)
    requires ReadAt(file, HEADER + Start(i, SEALED_CHUNK), |text| + TAG) == SealedChunk(key, id, prefix, i, last, text)
    ensures SealedAt(file, 14 + i * 1_048_592, key, ChunkNonce(prefix, i), ChunkLabel(id, i, last), text)
  {
    StartIsProduct(i, SEALED_CHUNK);
    LabelsExactly(id, prefix, i, last);
    ReadIsSealedAt(file, 14 + i * 1_048_592, key, ChunkNonce(prefix, i), ChunkLabel(id, i, last), text);
  }

  lemma {:induction false} RecordIsLast(header: seq<Cell>, sealed_: seq<Cell>, key: Key, id: seq<Byte>,
        prefix: seq<Byte>, size: nat, count: nat, checksum: seq<Byte>)
    requires |checksum| == 32
    ensures var file := header + sealed_ + SealedRecord(key, id, prefix, size, count, checksum);
            SealedAt(file, |file| - 64, key, RecordNonce(prefix), RecordLabel(id, prefix),
                     EightBytes(size) + EightBytes(count) + checksum)
  {
    LabelsExactly(id, prefix, 0, false);
    EightBytesExactly(size);
    EightBytesExactly(count);
    SealedIsSealedAt(header + sealed_, [], key, RecordNonce(prefix), RecordLabel(id, prefix),
                     EightBytes(size) + EightBytes(count) + checksum);
    assert header + sealed_ + SealedRecord(key, id, prefix, size, count, checksum) + []
        == header + sealed_ + SealedRecord(key, id, prefix, size, count, checksum);
  }

  lemma {:induction false} FramingExactly(size: nat, count: nat)
    requires count == CountFor(size)
    ensures ExpectedFileSize(size, count) == 14 + size + 16 * count + 64
  {
  }

  // ----- What is believed -----

  /** A file that says it is the block `id`: header, record and framing agree. */
  ghost predicate Certifies(file: seq<Cell>, key: Key, id: seq<Byte>, m: Metadata) {
    && |m.prefix| == 8 && |m.checksum| == 32 && m.count == CountFor(m.size) <= 4_294_967_295
    && |file| == 14 + m.size + 16 * m.count + 64 && StartsWith(file, HeaderText(m.prefix))
    && SealedAt(file, |file| - 64, key, RecordNonce(m.prefix), RecordLabel(id, m.prefix),
                EightBytes(m.size) + EightBytes(m.count) + m.checksum)
  }

  /** The metadata of a file is read if and only if the file certifies it; there is no other
      file that is believed, and none such that is refused. */
  lemma {:induction false} ReadMetadataIff(file: seq<Cell>, key: Key, id: seq<Byte>, m: Metadata)
    ensures ReadMetadata(file, key, id) == Some(m) <==> Certifies(file, key, id, m)
  {
    if ReadMetadata(file, key, id) == Some(m) {
      BelievedIsCertified(file, key, id, m);
    }
    if Certifies(file, key, id, m) {
      CertifiedIsBelieved(file, key, id, m);
    }
  }

  lemma {:induction false} PlainHeader(file: seq<Cell>, bytes: seq<Byte>)
    requires |file| >= |bytes|
    ensures Unsealed(file[..|bytes|]) == Some(bytes) <==> StartsWith(file, bytes)
  {
    if Unsealed(file[..|bytes|]) == Some(bytes) {
      UnsealedBytes(file[..|bytes|]);
    }
    if StartsWith(file, bytes) {
      assert file[..|bytes|] == Plains(bytes);
      UnsealedPlains(bytes);
    }
  }

  lemma {:induction false} UnsealedBytes(cells: seq<Cell>)
    requires Unsealed(cells).Some?
    ensures |Unsealed(cells).value| == |cells|
    ensures forall j :: 0 <= j < |cells| ==> cells[j] == Plain(Unsealed(cells).value[j])
  {
    if cells != [] {
      UnsealedBytes(cells[1..]);
      forall j | 0 <= j < |cells| ensures cells[j] == Plain(Unsealed(cells).value[j]) {
        if j > 0 {
          assert cells[1..][j - 1] == cells[j];
        }
      }
    }
  }

  lemma {:induction false} TailIsSealedAt(file: seq<Cell>, from: nat, key: Key, nonce: seq<Byte>, aad: seq<Byte>,
        text: seq<Byte>)
    requires from <= |file|
    ensures |file[from..]| == |text| + 16 && SealedAt(file[from..], 0, key, nonce, aad, text) <==>
            |file| == from + |text| + 16 && SealedAt(file, from, key, nonce, aad, text)
  {
    var tail := file[from..];
    if |file| == from + |text| + 16 && SealedAt(tail, 0, key, nonce, aad, text) {
      forall j: nat | j < |text| + 16 ensures file[from + j] == Sealed(Box(key, nonce, aad, text), j) {
        assert tail[0 + j] == file[from + j];
      }
    }
    if |file| == from + |text| + 16 && SealedAt(file, from, key, nonce, aad, text) {
      forall j: nat | j < |text| + 16 ensures tail[0 + j] == Sealed(Box(key, nonce, aad, text), j) {
        assert tail[j] == file[from + j];
      }
    }
  }

  lemma {:induction false} HeaderParts(header: seq<Byte>)
    requires |header| == HEADER && header[..5] == MAGIC && header[5] == VERSION
    ensures header == HeaderText(header[6..]) && HeaderBytes(header[6..]) == header
  {
    assert header == header[..5] + [header[5]] + header[6..];
  }

  /** Eight bytes are those of the number they stand for. */
  lemma {:induction false} NumberOfBytes(bytes: seq<Byte>)
    ensures BigEndian(FromBigEndian(bytes), |bytes|) == bytes
  {
    if bytes != [] {
      NumberOfBytes(bytes[..|bytes| - 1]);
    }
  }

  lemma {:induction false} RecordText(text: seq<Byte>)
    requires |text| == METADATA
    ensures text == EightBytes(FromBigEndian(text[..8])) + EightBytes(FromBigEndian(text[8..16])) + text[16..]
  {
    NumberOfBytes(text[..8]);
    NumberOfBytes(text[8..16]);
    EightBytesExactly(FromBigEndian(text[..8]));
    EightBytesExactly(FromBigEndian(text[8..16]));
    ThreeParts(text);
  }

  lemma {:induction false} ThreeParts(text: seq<Byte>)
    requires |text| >= 16
    ensures text == text[..8] + text[8..16] + text[16..]
  {
  }

  lemma {:induction false} BelievedIsCertified(file: seq<Cell>, key: Key, id: seq<Byte>, m: Metadata)
    requires ReadMetadata(file, key, id) == Some(m)
    ensures Certifies(file, key, id, m)
  {
    var header := Unsealed(file[..HEADER]).value;
    UnsealedLength(file[..HEADER]);
    HeaderParts(header);
    PlainHeader(file, header);
    LabelsExactly(id, m.prefix, 0, false);
    CountExactly(m.size);
    FramingExactly(m.size, m.count);
    var text := Open(key, RecordNonce(m.prefix), RecordLabel(id, m.prefix), file[|file| - 64..]).value;
    RecordText(text);
    OpensIff(key, RecordNonce(m.prefix), RecordLabel(id, m.prefix), file[|file| - 64..], text);
    TailIsSealedAt(file, |file| - 64, key, RecordNonce(m.prefix), RecordLabel(id, m.prefix), text);
  }

  lemma {:induction false} CertifiedIsBelieved(file: seq<Cell>, key: Key, id: seq<Byte>, m: Metadata)
    requires Certifies(file, key, id, m)
    ensures ReadMetadata(file, key, id) == Some(m)
  {
    var text := EightBytes(m.size) + EightBytes(m.count) + m.checksum;
    PlainHeader(file, HeaderText(m.prefix));
    LabelsExactly(id, m.prefix, 0, false);
    CountExactly(m.size);
    FramingExactly(m.size, m.count);
    TailIsSealedAt(file, |file| - 64, key, RecordNonce(m.prefix), RecordLabel(id, m.prefix), text);
    OpensIff(key, RecordNonce(m.prefix), RecordLabel(id, m.prefix), file[|file| - 64..], text);
    EightBytesExactly(m.size);
    EightBytesExactly(m.count);
    StartIsProduct(MAX_CHUNKS, CHUNK);
    MetadataRoundTrip(m.size, m.count, m.checksum);
    HeaderBack(m.prefix);
  }

  lemma {:induction false} HeaderBack(prefix: seq<Byte>)
    ensures HeaderText(prefix)[..5] == MAGIC && HeaderText(prefix)[5] == VERSION && HeaderText(prefix)[6..] == prefix
  {
  }

  /** A chunk opens if and only if it lies at its place, with the size the metadata gives it,
      sealed for its block, position and end. */
  lemma {:induction false} ChunkOpensIff(file: seq<Cell>, key: Key, id: seq<Byte>, m: Metadata, i: nat, text: seq<Byte>)
    requires m.count == CountFor(m.size) && i < m.count
    ensures ChunkText(file, key, id, m, i) == Some(text) <==>
            && |text| == Min(1_048_576, m.size - i * 1_048_576)
            && SealedAt(file, 14 + i * 1_048_592, key, ChunkNonce(m.prefix, i), ChunkLabel(id, i, i == m.count - 1),
                        text)
  {
    CountExactly(m.size);
    PlainSizeIsChunk(m, i);
    StartIsProduct(i, CHUNK);
    StartIsProduct(i, SEALED_CHUNK);
    LabelsExactly(id, m.prefix, i, i == m.count - 1);
    var size, nonce, aad := PlainSize(m, i), ChunkNonce(m.prefix, i), ChunkLabel(id, i, i == m.count - 1);
    OpensAtIff(file, 14 + i * 1_048_592, key, nonce, aad, size, text);
    ChunkTextIs(file, key, id, m, i, 14 + i * 1_048_592, size, nonce, aad);
  }

  lemma {:induction false} ChunkTextIs(file: seq<Cell>, key: Key, id: seq<Byte>, m: Metadata, i: nat, from: nat,
        size: nat, nonce: seq<Byte>, aad: seq<Byte>)
    requires size == PlainSize(m, i) && from == HEADER + Start(i, SEALED_CHUNK)
    requires nonce == Nonce(m.prefix, i) && aad == ChunkAad(id, i, i == m.count - 1)
    ensures var text := Open(key, nonce, aad, ReadAt(file, from, size + TAG));
            ChunkText(file, key, id, m, i) == if text.None? || |text.value| != size then None else text
  {
  }

  lemma {:induction false} OpensAtIff(file: seq<Cell>, from: nat, key: Key, nonce: seq<Byte>, aad: seq<Byte>, size: nat,
        text: seq<Byte>)
    ensures |text| == size ==>
              (Open(key, nonce, aad, ReadAt(file, from, size + TAG)) == Some(text) <==>
               SealedAt(file, from, key, nonce, aad, text))
  {
    if |text| == size {
      ReadIsSealedAt(file, from, key, nonce, aad, text);
      OpensIff(key, nonce, aad, ReadAt(file, from, size + 16), text);
      OpenSeal(key, nonce, aad, text);
    }
  }

  // ----- How a reading goes -----

  /** The text in pieces of `step` bytes, but for a last one that may be shorter. */
  ghost predicate InSteps(pieces: seq<seq<Byte>>, text: seq<Byte>, step: nat) {
    && Flatten(pieces) == text
    && forall k :: 0 <= k < |pieces| ==> if k < |pieces| - 1 then |pieces[k]| == step else 1 <= |pieces[k]| <= step
  }

  lemma {:induction false} SlicesExactly(text: seq<Byte>, from: nat, to: nat, step: nat)
    requires from <= to <= |text| && step > 0
    ensures InSteps(Slices(text, from, to, step), text[from..to], step)
    decreases if from < to then to - from else 0
  {
    SlicesFacts(text, from, to, step);
    StretchIsSlice(text, from, to);
    if from < to {
      SlicesExactly(text, Min(from + step, to), to, step);
    }
  }

  /** The bytes of chunk `i` that the range from `offset` to `end` wants. */
  function Wanted(text: seq<Byte>, offset: nat, end: nat, i: nat): seq<Byte>
    requires i * 1_048_576 < end && offset <= i * 1_048_576 + |text|
    requires offset <= end
  {
    text[Max(offset, i * 1_048_576) - i * 1_048_576..Min(end, i * 1_048_576 + |text|) - i * 1_048_576]
  }

  lemma {:induction false} PiecesExactly(text: seq<Byte>, offset: nat, end: nat, step: nat, i: nat)
    requires step > 0 && i * 1_048_576 < end && offset <= i * 1_048_576 + |text| && offset <= end
    ensures InSteps(PiecesOf(text, offset, end, step, i), Wanted(text, offset, end, i), step)
  {
    StartIsProduct(i, CHUNK);
    SlicesExactly(text, PartFrom(offset, i), PartTo(end, i, |text|), step);
  }

  /** The chunks from the first that the range touches to the last. */
  ghost predicate Touches(offset: nat, end: nat, i: nat) {
    offset / 1_048_576 <= i <= (end - 1) / 1_048_576
  }

  /** Chunk `i` gives its wanted bytes, in steps. */
  ghost predicate GivesChunk(pieces: seq<seq<Byte>>, text: Option<seq<Byte>>, offset: nat, end: nat, step: nat,
        i: nat) {
    && text.Some? && i * 1_048_576 < end && offset <= i * 1_048_576 + |text.value| && offset <= end
    && InSteps(pieces, Wanted(text.value, offset, end, i), step)
  }

  /** One run of pieces for each chunk from `first` to before `stop`, and no more. */
  ghost predicate ReadsUpTo(pieces: seq<seq<Byte>>, parts: seq<seq<seq<Byte>>>, texts: nat -> Option<seq<Byte>>,
        offset: nat, end: nat, step: nat, first: nat, stop: nat)
  {
    && first <= stop && |parts| == stop - first && pieces == Flatten(parts)
    && forall k: nat {:trigger texts(k)} :: first <= k < stop ==>
         GivesChunk(parts[k - first], texts(k), offset, end, step, k)
  }

  ghost predicate GoodSizes(texts: nat -> Option<seq<Byte>>, size: nat) {
    forall i: nat :: i < CountFor(size) && texts(i).Some? ==> |texts(i).value| == Min(1_048_576, size - i * 1_048_576)
  }

  lemma {:induction false} ChunkIsWanted(size: nat, offset: nat, end: nat, i: nat)
    requires offset < end <= size && Touches(offset, end, i)
    ensures i < CountFor(size) && i * 1_048_576 < end
    ensures offset <= i * 1_048_576 + Min(1_048_576, size - i * 1_048_576)
  {
  }

  /** All chunks are read, or those before one that does not open. */
  ghost predicate StopsAt(got: (seq<seq<Byte>>, bool), parts: seq<seq<seq<Byte>>>, texts: nat -> Option<seq<Byte>>,
        offset: nat, end: nat, step: nat, first: nat, last: nat, stop: nat)
  {
    && ReadsUpTo(got.0, parts, texts, offset, end, step, first, stop)
    && (if got.1 then stop == last + 1 else stop <= last && texts(stop).None?)
  }

  /** Every chunk that opens gives what is wanted of it. */
  ghost predicate AllGive(texts: nat -> Option<seq<Byte>>, offset: nat, end: nat, step: nat, first: nat, last: nat)
    requires step > 0
  {
    forall i: nat :: first <= i <= last && texts(i).Some? ==>
      GivesChunk(PiecesOf(texts(i).value, offset, end, step, i), texts(i), offset, end, step, i)
  }

  lemma {:induction false} ChunksExactly(texts: nat -> Option<seq<Byte>>, offset: nat, end: nat, step: nat,
        first: nat, last: nat) returns (parts: seq<seq<seq<Byte>>>, stop: nat)
    requires step > 0 && first <= last + 1 && AllGive(texts, offset, end, step, first, last)
    ensures StopsAt(ReadChunks(texts, offset, end, step, first, last), parts, texts, offset, end, step, first, last,
                    stop)
  {
    var reading := (i: nat) => ReadChunks(texts, offset, end, step, i, last);
    var opens, part := (i: nat) => texts(i).Some?,
                       (i: nat) => if texts(i).Some? then PiecesOf(texts(i).value, offset, end, step, i) else [];
    ReadingUnfolds(texts, offset, end, step, first, last, reading);
    ReadingRuns(texts, offset, end, step, first, last, reading, opens, part);
    parts, stop := RunStops(opens, part, reading, first, last, first);
    forall k: nat | first <= k < stop ensures GivesChunk(parts[k - first], texts(k), offset, end, step, k) {
      assert opens(k) && parts[k - first] == part(k);
    }
  }

  /** A reading that goes on as long as chunks open. */
  ghost predicate Runs(opens: nat -> bool, part: nat -> seq<seq<Byte>>, reading: nat -> (seq<seq<Byte>>, bool),
        first: nat, last: nat)
  {
    && reading(last + 1) == ([], true)
    && forall i: nat {:trigger opens(i)} :: first <= i <= last ==>
         reading(i) == if opens(i) then (part(i) + reading(i + 1).0, reading(i + 1).1) else ([], false)
  }

  lemma {:induction false} ReadingRuns(texts: nat -> Option<seq<Byte>>, offset: nat, end: nat, step: nat, first: nat,
        last: nat, reading: nat -> (seq<seq<Byte>>, bool), opens: nat -> bool, part: nat -> seq<seq<Byte>>)
    requires step > 0 && Unfolds(texts, offset, end, step, first, last, reading)
    requires forall i: nat :: opens(i) == texts(i).Some?
    requires forall i: nat :: texts(i).Some? ==> part(i) == PiecesOf(texts(i).value, offset, end, step, i)
    ensures Runs(opens, part, reading, first, last)
  {
    forall i: nat | first <= i <= last
      ensures reading(i) == if opens(i) then (part(i) + reading(i + 1).0, reading(i + 1).1) else ([], false)
    {
      assert opens(i) == texts(i).Some?;
    }
  }

  ghost predicate PartsFrom(parts: seq<seq<seq<Byte>>>, opens: nat -> bool, part: nat -> seq<seq<Byte>>, i: nat,
        stop: nat)
  {
    && i <= stop && |parts| == stop - i
    && forall k: nat {:trigger opens(k)} :: i <= k < stop ==> opens(k) && parts[k - i] == part(k)
  }

  lemma {:induction false} RunStops(opens: nat -> bool, part: nat -> seq<seq<Byte>>,
        reading: nat -> (seq<seq<Byte>>, bool), first: nat, last: nat, i: nat)
    returns (parts: seq<seq<seq<Byte>>>, stop: nat)
    requires first <= i <= last + 1 && Runs(opens, part, reading, first, last)
    ensures reading(i).0 == Flatten(parts) && PartsFrom(parts, opens, part, i, stop)
    ensures if reading(i).1 then stop == last + 1 else stop <= last && !opens(stop)
    decreases last + 1 - i
  {
    if i <= last && opens(i) {
      var rest, end := RunStops(opens, part, reading, first, last, i + 1);
      parts, stop := [part(i)] + rest, end;
      assert parts[1..] == rest;
    } else {
      parts, stop := [], i;
      assert i <= last ==> !opens(i);
    }
  }

  lemma {:induction false} GivesItsChunk(texts: nat -> Option<seq<Byte>>, size: nat, offset: nat, end: nat, step: nat,
        i: nat)
    requires step > 0 && offset < end <= size && GoodSizes(texts, size) && Touches(offset, end, i) && texts(i).Some?
    ensures GivesChunk(PiecesOf(texts(i).value, offset, end, step, i), texts(i), offset, end, step, i)
  {
    ChunkIsWanted(size, offset, end, i);
    assert |texts(i).value| == Min(1_048_576, size - i * 1_048_576);
    PiecesExactly(texts(i).value, offset, end, step, i);
  }

  /** A reading of a range that holds a byte: the wanted bytes of each chunk, in steps, up to
      the first chunk that does not open. It is finished if all of them do, corrupted if not. */
  ghost predicate Reads(got: (seq<seq<Byte>>, Ending), texts: nat -> Option<seq<Byte>>, offset: nat, end: nat,
        step: nat)
    requires end > 0
  {
    && (got.1 == Finished || got.1 == Corrupted)
    && exists parts, stop :: ReadsParts(got, parts, texts, offset, end, step, stop)
  }

  ghost predicate ReadsParts(got: (seq<seq<Byte>>, Ending), parts: seq<seq<seq<Byte>>>,
        texts: nat -> Option<seq<Byte>>, offset: nat, end: nat, step: nat, stop: nat)
    requires end > 0
  {
    StopsAt((got.0, got.1 == Finished), parts, texts, offset, end, step, offset / 1_048_576, (end - 1) / 1_048_576,
            stop)
  }

  /** Every way in which `read_block` ends, in the order in which it looks. */
  lemma {:induction false} ReadingExactly(metaFile: Option<seq<Cell>>, chunkFile: Option<seq<Cell>>, key: Key,
        id: seq<Byte>, step: nat, offset: int, length: Option<int>)
    requires step > 0
    ensures var got := BlockRead(metaFile, chunkFile, key, id, step, offset, length);
            if offset < 0 || (length.Some? && length.value < 0) then got == ([], BadRange)
            else if metaFile.None? then got == ([], NotFound)
            else if forall m :: !Certifies(metaFile.value, key, id, m) then got == ([], Corrupted)
            else
              var m := ReadMetadata(metaFile.value, key, id);
              && m.Some? && Certifies(metaFile.value, key, id, m.value)
              && var end := if length.None? then m.value.size else Min(m.value.size, offset + length.value);
                 if end <= offset then got == ([], Finished)
                 else if chunkFile.None? then got == ([], NotFound)
                 else Reads(got, ChunkTexts(chunkFile.value, key, id, m.value), offset, end, step)
  {
    if offset >= 0 && (length.Some? ==> length.value >= 0) && metaFile.Some? {
      var found := ReadMetadata(metaFile.value, key, id);
      if found.None? {
        forall m ensures !Certifies(metaFile.value, key, id, m) {
          ReadMetadataIff(metaFile.value, key, id, m);
        }
      } else {
        ReadMetadataIff(metaFile.value, key, id, found.value);
        CertifiedReading(found.value, chunkFile, key, id, step, offset, length);
      }
    }
  }

  lemma {:induction false} CertifiedReading(m: Metadata, chunkFile: Option<seq<Cell>>, key: Key, id: seq<Byte>,
        step: nat, offset: nat, length: Option<int>)
    requires step > 0 && (length.Some? ==> length.value >= 0) && m.count == CountFor(m.size)
    ensures var got := ReadWith(Some(m), chunkFile, key, id, step, offset, length);
            var end := if length.None? then m.size else Min(m.size, offset + length.value);
            if end <= offset then got == ([], Finished)
            else if chunkFile.None? then got == ([], NotFound)
            else Reads(got, ChunkTexts(chunkFile.value, key, id, m), offset, end, step)
  {
    var end := if length.None? then m.size else Min(m.size, offset + length.value);
    if offset < end && chunkFile.Some? {
      var texts := ChunkTexts(chunkFile.value, key, id, m);
      forall i: nat | i < CountFor(m.size) && texts(i).Some?
        ensures |texts(i).value| == Min(1_048_576, m.size - i * 1_048_576)
      {
        ChunkOpensIff(chunkFile.value, key, id, m, i, texts(i).value);
      }
      RangeIsRead(texts, m.size, step, offset, length, end);
      ReadWithReads(m, chunkFile.value, key, id, step, offset, length);
    }
  }

  lemma {:induction false} ReadWithReads(m: Metadata, chunkFile: seq<Cell>, key: Key, id: seq<Byte>, step: nat,
        offset: nat, length: Option<int>)
    requires step > 0 && (length.Some? ==> length.value >= 0)
    ensures ReadWith(Some(m), Some(chunkFile), key, id, step, offset, length)
            == RangeRead(ChunkTexts(chunkFile, key, id, m), m.size, step, offset, length)
  {
  }

  lemma {:induction false} RangeIsRead(texts: nat -> Option<seq<Byte>>, size: nat, step: nat, offset: nat,
        length: Option<int>, end: nat)
    requires step > 0 && (length.Some? ==> length.value >= 0) && offset < end <= size && GoodSizes(texts, size)
    requires end == if length.None? then size else Min(size, offset + length.value)
    ensures Reads(RangeRead(texts, size, step, offset, length), texts, offset, end, step)
  {
    var first, last := offset / 1_048_576, (end - 1) / 1_048_576;
    forall i: nat | first <= i <= last && texts(i).Some?
      ensures GivesChunk(PiecesOf(texts(i).value, offset, end, step, i), texts(i), offset, end, step, i)
    {
      GivesItsChunk(texts, size, offset, end, step, i);
    }
    var parts, stop := ChunksExactly(texts, offset, end, step, first, last);
    var chunks, got := ReadChunks(texts, offset, end, step, first, last), RangeRead(texts, size, step, offset, length);
    RangeOfChunks(texts, size, step, offset, length, end);
    ReadsIfItStops(got, chunks, parts, texts, offset, end, step, stop);
  }

  lemma {:induction false} RangeOfChunks(texts: nat -> Option<seq<Byte>>, size: nat, step: nat, offset: nat,
        length: Option<int>, end: nat)
    requires step > 0 && (length.Some? ==> length.value >= 0) && offset < end <= size
    requires end == if length.None? then size else Min(size, offset + length.value)
    ensures var chunks := ReadChunks(texts, offset, end, step, offset / 1_048_576, (end - 1) / 1_048_576);
            RangeRead(texts, size, step, offset, length) == (chunks.0, if chunks.1 then Finished else Corrupted)
  {
  }

  lemma {:induction false} ReadsIfItStops(got: (seq<seq<Byte>>, Ending), chunks: (seq<seq<Byte>>, bool),
        parts: seq<seq<seq<Byte>>>, texts: nat -> Option<seq<Byte>>, offset: nat, end: nat, step: nat, stop: nat)
    requires got == (chunks.0, if chunks.1 then Finished else Corrupted) && offset < end
    requires StopsAt(chunks, parts, texts, offset, end, step, offset / 1_048_576, (end - 1) / 1_048_576, stop)
    ensures Reads(got, texts, offset, end, step)
  {
    assert (got.0, got.1 == Finished) == chunks;
    assert ReadsParts(got, parts, texts, offset, end, step, stop);
  }
}
