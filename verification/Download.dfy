/** Parallel download: several threads write the blocks of a file in place, each through a
    view limited to its region, and start a block over when a replica fails half way. */
module Download {
  import opened Common

  // ----- The view of one region -----

  datatype Fault = Corrupted | Unavailable | Refused

  /** `_RegionWriter`: a cursor of its own over the shared file. */
  class RegionWriter {
    const file: array<Byte>
    const start: nat
    const size: nat
    var cursor: nat

    ghost predicate Valid()
      reads this
    {
      start <= cursor <= start + size <= file.Length
    }

    constructor (file: array<Byte>, start: nat, size: nat)
      requires start + size <= file.Length
      ensures Valid() && this.file == file && this.start == start && this.size == size && Tell() == 0
    {
      this.file, this.start, this.size, this.cursor := file, start, size, start;
    }

    function Tell(): nat
      requires Valid()
      reads this
    {
      cursor - start
    }

    method Seek(position: nat)
      requires Valid() && position <= size
      modifies this
      ensures Valid() && Tell() == position
    {
      cursor := start + position;
    }

    /** Deliberately nothing: other threads write the rest of the file. */
    method Truncate() {
    }

    method Write(data: seq<Byte>) returns (ok: bool)
      requires Valid()
      modifies this, file
      ensures Valid()
      ensures ok <==> old(Tell()) + |data| <= size
      ensures ok ==> Tell() == old(Tell()) + |data| && file[..] == Patch(old(file[..]), old(cursor), data)
      ensures !ok ==> Tell() == old(Tell()) && file[..] == old(file[..])
    {
      if Tell() + |data| > size {
        return false;
      }
      ghost var before := file[..];
      for i := 0 to |data|
        invariant cursor == old(cursor)
        invariant forall j :: 0 <= j < file.Length ==>
          file[j] == if cursor <= j < cursor + i then data[j - cursor] else before[j]
      {
        file[cursor + i] := data[i];
      }
      forall j | 0 <= j < |before| ensures file[j] == Patch(before, cursor, data)[j] {
        PatchAt(before, cursor, data, j);
      }
      assert file[..] == Patch(before, cursor, data);
      cursor := cursor + |data|;
      return true;
    }
  }

  /** What one replica does when asked for a block: it sends chunks and then ends or fails. */
  datatype Stream = Stream(chunks: seq<seq<Byte>>, fault: Option<Fault>)

  predicate Recoverable(s: Stream) {
    s.fault == Some(Unavailable)
  }

  /** The first replica whose answer decides: it completed, failed for good, or sent too much. */
  function Deciding(streams: seq<Stream>, size: nat): nat {
    if streams == [] then 0
    else if Recoverable(streams[0]) && |Flatten(streams[0].chunks)| <= size then 1 + Deciding(streams[1..], size)
    else 0
  }

  /** How the reading of a block ends: it counts the bytes read, or raises. */
  datatype Ending = Complete(bytes: nat) | NoReplica | Raised(fault: Fault)

  /** The outcome of a block, as the replicas answer one after the other. */
  function BlockOutcome(streams: seq<Stream>, size: nat): Ending {
    var k := Deciding(streams, size);
    if streams == [] then NoReplica
    else if k >= |streams| then Raised(Unavailable)
    else if |Flatten(streams[k].chunks)| > size then Raised(Corrupted)
    else if streams[k].fault.None? then Complete(|Flatten(streams[k].chunks)|)
    else Raised(streams[k].fault.value)
  }

  /** The first `k` replicas became unavailable, none having sent too much. */
  ghost predicate GaveWay(streams: seq<Stream>, size: nat, k: nat) {
    k <= |streams|
    && forall j :: 0 <= j < k ==> streams[j].fault == Some(Unavailable) && |Flatten(streams[j].chunks)| <= size
  }

  /** The first replica not to become unavailable sent its whole stream, and it fits. */
  ghost predicate Decides(streams: seq<Stream>, size: nat, k: nat) {
    k < |streams| && GaveWay(streams, size, k) && streams[k].fault.None? && |Flatten(streams[k].chunks)| <= size
  }

  /** Another replica is tried exactly while the ones before became unavailable; whatever else
      happens to a replica decides the block. */
  lemma {:induction false} OutcomeExactly(streams: seq<Stream>, size: nat, k: nat)
    requires GaveWay(streams, size, k)
    ensures k == |streams| ==> BlockOutcome(streams, size) == if k == 0 then NoReplica else Raised(Unavailable)
    ensures k < |streams| && |Flatten(streams[k].chunks)| > size ==> BlockOutcome(streams, size) == Raised(Corrupted)
    ensures k < |streams| && |Flatten(streams[k].chunks)| <= size && streams[k].fault == None ==>
              BlockOutcome(streams, size) == Complete(|Flatten(streams[k].chunks)|) && Deciding(streams, size) == k
    ensures k < |streams| && |Flatten(streams[k].chunks)| <= size
            && streams[k].fault.Some? && streams[k].fault.value != Unavailable ==>
              BlockOutcome(streams, size) == Raised(streams[k].fault.value)
  {
    DecidingDrop(streams, size, k);
  }

  lemma {:induction false} DecidingDrop(streams: seq<Stream>, size: nat, k: nat)
    requires k <= |streams|
    requires forall j :: 0 <= j < k ==> Recoverable(streams[j]) && |Flatten(streams[j].chunks)| <= size
    ensures Deciding(streams, size) == k + Deciding(streams[k..], size)
  {
    if k > 0 {
      DecidingDrop(streams[1..], size, k - 1);
      assert streams[1..][k - 1..] == streams[k..];
    } else {
      assert streams[0..] == streams;
    }
  }

  /** How many chunks of one stream arrive before the region refuses one. */
  function Arriving(chunks: seq<seq<Byte>>, room: int): nat {
    if chunks == [] then 0
    else if |chunks[0]| > room then 1
    else 1 + Arriving(chunks[1..], room - |chunks[0]|)
  }

  /** How many chunks arrive until the block is decided; the stop signal is looked at on each. */
  function Looks(streams: seq<Stream>, size: nat): nat {
    if streams == [] then 0
    else Arriving(streams[0].chunks, size)
         + if Recoverable(streams[0]) && |Flatten(streams[0].chunks)| <= size then Looks(streams[1..], size) else 0
  }

  lemma {:induction false} ArrivingAt(chunks: seq<seq<Byte>>, room: int, i: nat)
    requires i <= |chunks| && |Flatten(chunks[..i])| <= room
    ensures Arriving(chunks, room) == i + Arriving(chunks[i..], room - |Flatten(chunks[..i])|)
  {
    if i > 0 {
      assert chunks[..i] == [chunks[0]] + chunks[1..][..i - 1];
      ArrivingAt(chunks[1..], room - |chunks[0]|, i - 1);
      assert chunks[1..][i - 1..] == chunks[i..];
    } else {
      assert chunks[..0] == [] && chunks[0..] == chunks;
    }
  }

  /** When the signal is set, counted in looks from here on; none if it never is. */
  predicate StopsWithin(stop: Option<nat>, looks: nat) {
    stop.Some? && stop.value < looks
  }

  function LooksLater(stop: Option<nat>, looks: nat): Option<nat> {
    if stop.Some? && stop.value >= looks then Some(stop.value - looks) else stop
  }

  /** `_read_block_with_failover` through a region: it is cancelled exactly when the stop
      signal is found set at a chunk before the block is decided; otherwise, whatever the
      replicas did before, the region ends up starting with the complete stream of a single
      replica. The rest of the file is untouched. */
  method ReadBlockWithFailover(streams: seq<Stream>, writer: RegionWriter, stop: Option<nat>)
    returns (r: Ending, cancelled: bool)
    requires writer.Valid() && writer.Tell() == 0
    modifies writer, writer.file
    ensures writer.Valid()
    ensures cancelled <==> StopsWithin(stop, Looks(streams, writer.size))
    ensures !cancelled ==> r == BlockOutcome(streams, writer.size)
    ensures !cancelled && r.Complete? ==>
              forall k {:trigger streams[k]} :: 0 <= k < |streams| && Decides(streams, writer.size, k) ==>
                var bytes := Flatten(streams[k].chunks);
                r.bytes == |bytes| && writer.file[writer.start..writer.start + |bytes|] == bytes
    ensures forall j :: 0 <= j < writer.file.Length && !(writer.start <= j < writer.start + writer.size) ==>
              writer.file[j] == old(writer.file[j])
  {
    var left := stop;
    for k := 0 to |streams|
      invariant writer.Valid() && writer.Tell() == 0 && GaveWay(streams, writer.size, k)
      invariant StopsWithin(stop, Looks(streams, writer.size)) == StopsWithin(left, Looks(streams[k..], writer.size))
      invariant forall j :: 0 <= j < writer.file.Length && !(writer.start <= j < writer.start + writer.size) ==>
                  writer.file[j] == old(writer.file[j])
    {
      OutcomeExactly(streams, writer.size, k);
      LooksFrom(streams, writer.size, k);
      var sent;
      sent, cancelled := CopyStream(streams[k].chunks, writer, left);
      if cancelled || !sent {
        return Raised(Corrupted), cancelled;
      }
      left := LooksLater(left, |streams[k].chunks|);
      if streams[k].fault.None? {
        forall i {:trigger streams[i]} | 0 <= i < |streams| && Decides(streams, writer.size, i) ensures i == k {
          OnlyOneDecides(streams, writer.size, k, i);
        }
        return Complete(writer.Tell()), false;
      }
      writer.Seek(0);
      writer.Truncate();
      if !Recoverable(streams[k]) {
        return Raised(streams[k].fault.value), false;
      }
    }
    OutcomeExactly(streams, writer.size, |streams|);
    return if streams == [] then NoReplica else Raised(Unavailable), false;
  }

  lemma {:induction false} OnlyOneDecides(streams: seq<Stream>, size: nat, k: nat, i: nat)
    requires Decides(streams, size, k) && Decides(streams, size, i)
    ensures i == k
  {
    assert streams[k].fault.None? && streams[i].fault.None?;
  }

  /** The looks from replica `k` on. */
  lemma {:induction false} LooksFrom(streams: seq<Stream>, size: nat, k: nat)
    requires k < |streams|
    ensures var chunks := streams[k].chunks;
            Looks(streams[k..], size) ==
            if |Flatten(chunks)| > size then Arriving(chunks, size)
            else |chunks| + if Recoverable(streams[k]) then Looks(streams[k + 1..], size) else 0
  {
    var chunks := streams[k].chunks;
    assert streams[k..][0] == streams[k] && streams[k..][1..] == streams[k + 1..];
    assert chunks[..|chunks|] == chunks && chunks[|chunks|..] == [];
    if |Flatten(chunks)| <= size {
      ArrivingAt(chunks, size, |chunks|);
    }
  }

  /** All the chunks that some streams send. */
  function ChunksOf(streams: seq<Stream>): (r: seq<seq<Byte>>) {
    if streams == [] then [] else streams[0].chunks + ChunksOf(streams[1..])
  }

  /** The signal is looked at on every chunk that arrives: all those of the replicas that became
      unavailable, and those of the deciding one up to the first that does not fit. */
  lemma {:induction false} LooksExactly(streams: seq<Stream>, size: nat, k: nat, m: nat)
    requires GaveWay(streams, size, k)
    ensures k == |streams| ==> Looks(streams, size) == |ChunksOf(streams)|
    ensures k < |streams| && |Flatten(streams[k].chunks)| <= size && streams[k].fault != Some(Unavailable) ==>
              Looks(streams, size) == |ChunksOf(streams[..k])| + |streams[k].chunks|
    ensures k < |streams| && m < |streams[k].chunks| && |Flatten(streams[k].chunks[..m])| <= size
            && |Flatten(streams[k].chunks[..m])| + |streams[k].chunks[m]| > size ==>
              Looks(streams, size) == |ChunksOf(streams[..k])| + m + 1
  {
    if k == 0 {
      if streams != [] {
        LooksFrom(streams, size, 0);
        assert streams[0..] == streams;
        if m < |streams[0].chunks| && |Flatten(streams[0].chunks[..m])| <= size {
          ArrivingAt(streams[0].chunks, size, m);
          assert streams[0].chunks[..m + 1] == streams[0].chunks[..m] + [streams[0].chunks[m]];
          FlattenSnoc(streams[0].chunks[..m], streams[0].chunks[m]);
          LongerThanPrefix(streams[0].chunks, m + 1);
        }
      }
    } else {
      LooksFrom(streams, size, 0);
      assert streams[0..] == streams;
      LooksExactly(streams[1..], size, k - 1, m);
      assert streams[..k][0] == streams[0] && streams[..k][1..] == streams[1..][..k - 1];
    }
  }

  method CopyStream(chunks: seq<seq<Byte>>, writer: RegionWriter, stop: Option<nat>) returns (ok: bool, cancelled: bool)
    requires writer.Valid() && writer.Tell() == 0
    modifies writer, writer.file
    ensures writer.Valid()
    ensures cancelled <==> StopsWithin(stop, Arriving(chunks, writer.size))
    ensures !cancelled ==> (ok <==> |Flatten(chunks)| <= writer.size)
    ensures !cancelled && ok ==>
              writer.Tell() == |Flatten(chunks)| && writer.file[writer.start..writer.cursor] == Flatten(chunks)
    ensures forall j :: 0 <= j < writer.file.Length && !(writer.start <= j < writer.start + writer.size) ==>
              writer.file[j] == old(writer.file[j])
  {
    for i := 0 to |chunks|
      invariant writer.Valid() && writer.Tell() == |Flatten(chunks[..i])|
      invariant stop.Some? ==> stop.value >= i
      invariant writer.file[writer.start..writer.cursor] == Flatten(chunks[..i])
      invariant forall j :: 0 <= j < writer.file.Length && !(writer.start <= j < writer.start + writer.size) ==>
                  writer.file[j] == old(writer.file[j])
    {
      ArrivingAt(chunks, writer.size, i);
      if stop == Some(i) {
        return false, true;
      }
      assert chunks[..i + 1] == chunks[..i] + [chunks[i]];
      FlattenSnoc(chunks[..i], chunks[i]);
      ghost var before, at := writer.file[..], writer.cursor;
      ok := writer.Write(chunks[i]);
      if !ok {
        LongerThanPrefix(chunks, i + 1);
        return false, false;
      }
      PatchExtends(before, writer.start, at, chunks[i]);
      forall j | 0 <= j < writer.file.Length && !(writer.start <= j < writer.start + writer.size)
        ensures writer.file[j] == old(writer.file[j])
      {
        PatchAt(before, at, chunks[i], j);
      }
    }
    assert chunks[..|chunks|] == chunks;
    ArrivingAt(chunks, writer.size, |chunks|);
    return true, false;
  }

  lemma {:induction false} LongerThanPrefix(chunks: seq<seq<Byte>>, i: nat)
    requires i <= |chunks|
    ensures |Flatten(chunks)| >= |Flatten(chunks[..i])|
  {
    assert chunks == chunks[..i] + chunks[i..];
    FlattenConcat(chunks[..i], chunks[i..]);
  }

  // ----- Threads -----

  datatype Status =
    | Waiting
    | Reading(sent: seq<Byte>)
    | Done(bytes: seq<Byte>)
    | Failed(fault: Fault)
    | Cancelled

  /** The file of final size, one thread a block, and the first error, which stops the rest. */
  datatype Transfer = Transfer(file: seq<Byte>, threads: seq<Status>, firstError: Option<Fault>)

  /** What happens to one thread: it starts, gets a chunk, its replica fails (`last` when no
      other replica is left), or its replica's stream ends. */
  datatype Event = Start | Chunk(data: seq<Byte>) | ReplicaFails(recoverable: bool, last: bool) | StreamEnds

  /** Where block `i` goes: `_block_starts`. */
  function BlockStartOf(sizes: seq<nat>, i: nat): nat
    requires i <= |sizes|
  {
    if i == 0 then 0 else BlockStartOf(sizes, i - 1) + sizes[i - 1]
  }

  lemma {:induction false} StartsGrow(sizes: seq<nat>, i: nat, j: nat)
    requires i <= j <= |sizes|
    ensures BlockStartOf(sizes, i) <= BlockStartOf(sizes, j)
    ensures i < j ==> BlockStartOf(sizes, i) + sizes[i] <= BlockStartOf(sizes, j)
  {
    if i < j {
      StartsGrow(sizes, i, j - 1);
    }
  }

  function Fail(t: Transfer, i: nat, fault: Fault): Transfer
    requires i < |t.threads|
  {
    t.(threads := t.threads[i := Failed(fault)], firstError := if t.firstError.None? then Some(fault) else t.firstError)
  }

  /** One event of one thread. Whether to stop is looked at before starting and before
      each chunk is written. */
  function Advance(sizes: seq<nat>, t: Transfer, i: nat, e: Event): (r: Transfer)
    requires i < |t.threads| == |sizes| && |t.file| == BlockStartOf(sizes, |sizes|)
    ensures |r.file| == |t.file|
  {
    var stopped := t.firstError.Some?;
    match t.threads[i]
    case Waiting =>
      if !e.Start? then t
      else t.(threads := t.threads[i := if stopped then Cancelled else Reading([])])
    case Reading(sent) =>
      (match e
       case Start => t
       case Chunk(data) =>
         if stopped then t.(threads := t.threads[i := Cancelled])
         else if |sent| + |data| > sizes[i] then Fail(t, i, Corrupted)
         else
           StartsGrow(sizes, i, |sizes|);
           t.(file := Patch(t.file, BlockStartOf(sizes, i) + |sent|, data),
              threads := t.threads[i := Reading(sent + data)])
       case ReplicaFails(recoverable, last) =>
         if !recoverable then Fail(t, i, Refused)
         else if last then Fail(t, i, Unavailable)
         else t.(threads := t.threads[i := Reading([])])
       case StreamEnds =>
         if |sent| == sizes[i] then t.(threads := t.threads[i := Done(sent)]) else Fail(t, i, Corrupted))
    case _ => t
  }

  /** What the region of a thread holds. */
  function Received(status: Status): seq<Byte> {
    match status
    case Reading(sent) => sent
    case Done(bytes) => bytes
    case _ => []
  }

  ghost predicate RegionHolds(sizes: seq<nat>, t: Transfer, i: nat)
    requires i < |t.threads| == |sizes|
  {
    var start, bytes := BlockStartOf(sizes, i), Received(t.threads[i]);
    && |bytes| <= sizes[i] && start + |bytes| <= |t.file| && t.file[start..start + |bytes|] == bytes
    && (t.threads[i].Done? ==> |bytes| == sizes[i])
  }

  ghost predicate Consistent(sizes: seq<nat>, t: Transfer) {
    && |t.threads| == |sizes| && |t.file| == BlockStartOf(sizes, |sizes|)
    && (forall i :: 0 <= i < |sizes| ==> RegionHolds(sizes, t, i))
    && forall i :: 0 <= i < |sizes| && (t.threads[i].Failed? || t.threads[i].Cancelled?) ==> t.firstError.Some?
  }

  /** No thread writes outside its region. */
  lemma {:induction false} WritesStayInside(sizes: seq<nat>, t: Transfer, i: nat, e: Event, j: nat)
    requires Consistent(sizes, t) && i < |sizes| && j < |t.file|
    requires !(BlockStartOf(sizes, i) <= j < BlockStartOf(sizes, i) + sizes[i])
    ensures Advance(sizes, t, i, e).file[j] == t.file[j]
  {
    assert RegionHolds(sizes, t, i);
    StartsGrow(sizes, i, |sizes|);
    if t.threads[i].Reading? && e.Chunk? && |t.threads[i].sent| + |e.data| <= sizes[i] {
      PatchAt(t.file, BlockStartOf(sizes, i) + |t.threads[i].sent|, e.data, j);
    }
  }

  lemma {:induction false} OtherRegionHolds(sizes: seq<nat>, t: Transfer, i: nat, e: Event, k: nat)
    requires Consistent(sizes, t) && i < |sizes| && k < |sizes| && k != i
    ensures RegionHolds(sizes, Advance(sizes, t, i, e), k)
  {
    assert RegionHolds(sizes, t, k);
    var start, bytes := BlockStartOf(sizes, k), Received(t.threads[k]);
    var file' := Advance(sizes, t, i, e).file;
    StartsGrow(sizes, Min(i, k), Max(i, k));
    forall j | start <= j < start + |bytes| ensures file'[j] == t.file[j] {
      WritesStayInside(sizes, t, i, e, j);
    }
    SameSlice(t.file, file', start, start + |bytes|);
  }

  lemma {:induction false} SameSlice(a: seq<Byte>, b: seq<Byte>, from: nat, to: nat)
    requires from <= to <= |a| == |b| && forall j :: from <= j < to ==> b[j] == a[j]
    ensures b[from..to] == a[from..to]
  {
  }

  lemma {:induction false} ChunkLands(sizes: seq<nat>, t: Transfer, i: nat, data: seq<Byte>)
    requires Consistent(sizes, t) && i < |sizes| && t.threads[i].Reading? && t.firstError.None?
    requires |t.threads[i].sent| + |data| <= sizes[i]
    ensures RegionHolds(sizes, Advance(sizes, t, i, Chunk(data)), i)
  {
    var start, sent := BlockStartOf(sizes, i), t.threads[i].sent;
    assert RegionHolds(sizes, t, i);
    StartsGrow(sizes, i, |sizes|);
    var t' := Advance(sizes, t, i, Chunk(data));
    assert t'.file == Patch(t.file, start + |sent|, data) && Received(t'.threads[i]) == sent + data;
    RegionExtends(t.file, start, sent, data);
  }

  lemma {:induction false} RegionExtends(file: seq<Byte>, start: nat, sent: seq<Byte>, data: seq<Byte>)
    requires start + |sent| + |data| <= |file| && file[start..start + |sent|] == sent
    ensures Patch(file, start + |sent|, data)[start..start + |sent + data|] == sent + data
  {
    PatchExtends(file, start, start + |sent|, data);
  }

  lemma {:induction false} OwnRegionHolds(sizes: seq<nat>, t: Transfer, i: nat, e: Event)
    requires Consistent(sizes, t) && i < |sizes|
    ensures RegionHolds(sizes, Advance(sizes, t, i, e), i)
  {
    if t.threads[i].Reading? && e.Chunk? && t.firstError.None? && |t.threads[i].sent| + |e.data| <= sizes[i] {
      ChunkLands(sizes, t, i, e.data);
    } else {
      assert RegionHolds(sizes, t, i);
      StartsGrow(sizes, i, |sizes|);
    }
  }

  lemma {:induction false} StaysConsistent(sizes: seq<nat>, t: Transfer, i: nat, e: Event)
    requires Consistent(sizes, t) && i < |sizes|
    ensures Consistent(sizes, Advance(sizes, t, i, e))
  {
    forall k | 0 <= k < |sizes| ensures RegionHolds(sizes, Advance(sizes, t, i, e), k) {
      if k == i {
        OwnRegionHolds(sizes, t, i, e);
      } else {
        OtherRegionHolds(sizes, t, i, e, k);
      }
    }
  }

  // ----- Whole downloads -----

  datatype Turn = Turn(thread: nat, event: Event)

  function Waitings(n: nat): (r: seq<Status>)
    ensures |r| == n && forall i :: 0 <= i < n ==> r[i] == Waiting
  {
    if n == 0 then [] else [Waiting] + Waitings(n - 1)
  }

  /** The transfer after the turns of the threads, in whatever order they came. */
  ghost function After(sizes: seq<nat>, turns: seq<Turn>): Transfer {
    if turns == [] then Transfer(Zeros(BlockStartOf(sizes, |sizes|)), Waitings(|sizes|), None)
    else
      var t, last := After(sizes, turns[..|turns| - 1]), turns[|turns| - 1];
      if last.thread < |sizes| && Consistent(sizes, t) then Advance(sizes, t, last.thread, last.event) else t
  }

  lemma {:induction false} AlwaysConsistent(sizes: seq<nat>, turns: seq<Turn>)
    ensures Consistent(sizes, After(sizes, turns))
  {
    if turns == [] {
      forall i | 0 <= i < |sizes| ensures RegionHolds(sizes, After(sizes, turns), i) {
        StartsGrow(sizes, i, |sizes|);
      }
    } else {
      var t, last := After(sizes, turns[..|turns| - 1]), turns[|turns| - 1];
      AlwaysConsistent(sizes, turns[..|turns| - 1]);
      if last.thread < |sizes| {
        StaysConsistent(sizes, t, last.thread, last.event);
      }
    }
  }

  /** What thread `i`'s present replica has sent since it was asked. */
  function SentLately(turns: seq<Turn>, i: nat): seq<Byte> {
    if turns == [] then []
    else
      var before, last := SentLately(turns[..|turns| - 1], i), turns[|turns| - 1];
      if last.thread != i then before
      else
        match last.event
        case Start => before
        case Chunk(data) => before + data
        case ReplicaFails(_, _) => []
        case StreamEnds => before
  }

  /** A thread reads or is done only with what one replica sent. Turns of a thread that is
      over, or has not started, are not turns. */
  ghost predicate ProperTurns(sizes: seq<nat>, turns: seq<Turn>) {
    turns == []
    || (ProperTurns(sizes, turns[..|turns| - 1])
        && var t, last := After(sizes, turns[..|turns| - 1]), turns[|turns| - 1];
           last.thread < |sizes| == |t.threads|
           && (if last.event.Start? then t.threads[last.thread].Waiting? else t.threads[last.thread].Reading?))
  }

  lemma {:induction false} OneReplicaPerRegion(sizes: seq<nat>, turns: seq<Turn>, i: nat)
    requires ProperTurns(sizes, turns) && i < |sizes|
    ensures |After(sizes, turns).threads| == |sizes|
    ensures var status := After(sizes, turns).threads[i];
            && (status.Reading? || status.Done? ==> Received(status) == SentLately(turns, i))
            && (status.Waiting? ==> SentLately(turns, i) == [])
  {
    AlwaysConsistent(sizes, turns);
    if turns != [] {
      AlwaysConsistent(sizes, turns[..|turns| - 1]);
      OneReplicaPerRegion(sizes, turns[..|turns| - 1], i);
    }
  }

  function Streams(turns: seq<Turn>, n: nat): (r: seq<seq<Byte>>)
    ensures |r| == n && forall i {:trigger r[i]} :: 0 <= i < n ==> r[i] == SentLately(turns, i)
  {
    if n == 0 then [] else Streams(turns, n - 1) + [SentLately(turns, n - 1)]
  }

  lemma {:induction false} RegionsCoverTheFile(sizes: seq<nat>, file: seq<Byte>, pieces: seq<seq<Byte>>, n: nat)
    requires n <= |sizes| == |pieces| && |file| == BlockStartOf(sizes, |sizes|)
    requires forall i :: 0 <= i < |sizes| ==> PieceInPlace(sizes, file, pieces, i)
    ensures BlockStartOf(sizes, n) <= |file| && Flatten(pieces[..n]) == file[..BlockStartOf(sizes, n)]
  {
    StartsGrow(sizes, n, |sizes|);
    if n > 0 {
      RegionsCoverTheFile(sizes, file, pieces, n - 1);
      assert pieces[..n] == pieces[..n - 1] + [pieces[n - 1]];
      FlattenSnoc(pieces[..n - 1], pieces[n - 1]);
      assert PieceInPlace(sizes, file, pieces, n - 1);
    }
  }

  ghost predicate PieceInPlace(sizes: seq<nat>, file: seq<Byte>, pieces: seq<seq<Byte>>, i: nat)
    requires i < |sizes| == |pieces|
  {
    var start := BlockStartOf(sizes, i);
    |pieces[i]| == sizes[i] && start + sizes[i] <= |file| && file[start..start + sizes[i]] == pieces[i]
  }

  /** If every thread ends well, then, whatever the interleaving and the failovers, the file
      is the concatenation of the blocks, each as one replica sent it from beginning to end. */
  lemma {:induction false} DownloadIsTheConcatenation(sizes: seq<nat>, turns: seq<Turn>)
    requires ProperTurns(sizes, turns)
    requires |After(sizes, turns).threads| == |sizes| && forall i :: 0 <= i < |sizes| ==>
              After(sizes, turns).threads[i].Done?
    ensures After(sizes, turns).file == Flatten(Streams(turns, |sizes|))
  {
    var t, pieces := After(sizes, turns), Streams(turns, |sizes|);
    AlwaysConsistent(sizes, turns);
    forall i | 0 <= i < |sizes| ensures PieceInPlace(sizes, t.file, pieces, i) {
      OneReplicaPerRegion(sizes, turns, i);
      assert RegionHolds(sizes, t, i);
    }
    RegionsCoverTheFile(sizes, t.file, pieces, |sizes|);
    assert pieces[..|sizes|] == pieces;
  }

  /** If not every thread ends well, there is a first error to raise, and it is a fault of
      some block, never the cancellation of another. */
  lemma {:induction false} FailureHasACause(sizes: seq<nat>, turns: seq<Turn>, i: nat)
    requires i < |sizes|
    ensures |After(sizes, turns).threads| == |sizes|
    ensures After(sizes, turns).threads[i].Failed? || After(sizes, turns).threads[i].Cancelled? ==>
              exists k :: 0 <= k < |sizes| && After(sizes, turns).threads[k].Failed?
                          && After(sizes, turns).firstError == Some(After(sizes, turns).threads[k].fault)
  {
    AlwaysConsistent(sizes, turns);
    ErrorOfAThread(sizes, turns);
  }

  lemma {:induction false} ErrorOfAThread(sizes: seq<nat>, turns: seq<Turn>)
    requires Consistent(sizes, After(sizes, turns))
    ensures var t := After(sizes, turns);
            t.firstError.Some? ==>
              exists k :: 0 <= k < |sizes| && t.threads[k].Failed? && t.firstError == Some(t.threads[k].fault)
  {
    if turns != [] {
      var before, last := After(sizes, turns[..|turns| - 1]), turns[|turns| - 1];
      AlwaysConsistent(sizes, turns[..|turns| - 1]);
      ErrorOfAThread(sizes, turns[..|turns| - 1]);
      var t := After(sizes, turns);
      if before.firstError.Some? {
        var k :| 0 <= k < |sizes| && before.threads[k].Failed? && before.firstError == Some(before.threads[k].fault);
        assert t.threads[k] == before.threads[k];
      } else if t.firstError.Some? {
        assert t.threads[last.thread].Failed?;
      }
    }
  }

  // ----- The first error, and downloads without one -----

  /** The first error stays the one to raise, whatever fails later. */
  lemma {:induction false} FirstErrorStays(sizes: seq<nat>, t: Transfer, i: nat, e: Event)
    requires Consistent(sizes, t) && i < |sizes|
    ensures t.firstError.Some? ==> Advance(sizes, t, i, e).firstError == t.firstError
    ensures t.firstError.None? && Advance(sizes, t, i, e).firstError.Some? ==>
              Advance(sizes, t, i, e).threads[i] == Failed(Advance(sizes, t, i, e).firstError.value)
  {
  }

  /** After it no byte is written: threads that have not started do not, and those that read
      stop at their next chunk. */
  lemma {:induction false} NothingWrittenAfterError(sizes: seq<nat>, t: Transfer, i: nat, e: Event)
    requires Consistent(sizes, t) && i < |sizes| && t.firstError.Some?
    ensures Advance(sizes, t, i, e).file == t.file
    ensures t.threads[i].Waiting? && e.Start? ==> Advance(sizes, t, i, e).threads[i] == Cancelled
    ensures t.threads[i].Reading? && e.Chunk? ==> Advance(sizes, t, i, e).threads[i] == Cancelled
  {
  }

  /** What makes a thread fail: a chunk that does not fit, a replica that refuses, the last
      replica becoming unavailable, or a stream that ends short. */
  ghost predicate Faulty(sizes: seq<nat>, sent: seq<Byte>, i: nat, e: Event)
    requires i < |sizes|
  {
    match e
    case Start => false
    case Chunk(data) => |sent| + |data| > sizes[i]
    case ReplicaFails(recoverable, last) => !recoverable || last
    case StreamEnds => |sent| != sizes[i]
  }

  /** No turn of the download is a fault. */
  ghost predicate FaultFree(sizes: seq<nat>, turns: seq<Turn>) {
    turns == []
    || (FaultFree(sizes, turns[..|turns| - 1])
        && turns[|turns| - 1].thread < |sizes|
        && !Faulty(sizes, SentLately(turns[..|turns| - 1], turns[|turns| - 1].thread), turns[|turns| - 1].thread,
                   turns[|turns| - 1].event))
  }

  predicate Ended(turns: seq<Turn>, i: nat) {
    exists k :: 0 <= k < |turns| && turns[k] == Turn(i, StreamEnds)
  }

  /** A download without a fault ends well: no thread fails or is cancelled, and each one whose
      stream has ended is done. */
  lemma {:induction false} FaultFreeDownloadEnds(sizes: seq<nat>, turns: seq<Turn>, i: nat)
    requires ProperTurns(sizes, turns) && FaultFree(sizes, turns) && i < |sizes|
    ensures |After(sizes, turns).threads| == |sizes| && After(sizes, turns).firstError.None?
    ensures !After(sizes, turns).threads[i].Failed? && !After(sizes, turns).threads[i].Cancelled?
    ensures Ended(turns, i) <==> After(sizes, turns).threads[i].Done?
  {
    AlwaysConsistent(sizes, turns);
    if turns != [] {
      var before, last := turns[..|turns| - 1], turns[|turns| - 1];
      AlwaysConsistent(sizes, before);
      FaultFreeDownloadEnds(sizes, before, i);
      OneReplicaPerRegion(sizes, before, last.thread);
      if Ended(before, i) {
        var k :| 0 <= k < |before| && before[k] == Turn(i, StreamEnds);
        assert turns[k] == Turn(i, StreamEnds);
      }
      if Ended(turns, i) {
        var k :| 0 <= k < |turns| && turns[k] == Turn(i, StreamEnds);
        assert k < |before| ==> before[k] == Turn(i, StreamEnds);
      }
      if last == Turn(i, StreamEnds) {
        assert turns[|turns| - 1] == Turn(i, StreamEnds);
      }
    }
  }

  /** What a turn of a thread that reads does, in all cases in which the first error does not
      stop it: no other thread changes, each fault is reported as what it is, and the next
      replica starts from nothing. */
  lemma {:induction false} TurnExactly(sizes: seq<nat>, t: Transfer, i: nat, e: Event)
    requires Consistent(sizes, t) && i < |sizes| && t.threads[i].Reading? && (e.Chunk? ==> t.firstError.None?)
    ensures |Advance(sizes, t, i, e).threads| == |sizes|
    ensures forall k :: 0 <= k < |sizes| && k != i ==> Advance(sizes, t, i, e).threads[k] == t.threads[k]
    ensures !e.Chunk? ==> Advance(sizes, t, i, e).file == t.file
    ensures var sent, status := t.threads[i].sent, Advance(sizes, t, i, e).threads[i];
            match e
            case Start => status == Reading(sent)
            case Chunk(data) => status == if |sent| + |data| > sizes[i] then Failed(Corrupted) else Reading(sent + data)
            case ReplicaFails(recoverable, last) =>
              status == if !recoverable then Failed(Refused) else if last then Failed(Unavailable) else Reading([])
            case StreamEnds => status == if |sent| == sizes[i] then Done(sent) else Failed(Corrupted)
  {
  }
}
