/** The write pipeline between DataNodes: each node stores the block while it forwards the
    chunks to the next through a small bounded queue. If the head says the block is written,
    every node of the chain holds it; if anything downstream failed, the head keeps no copy. */
module Pipeline {
  import opened Common

  const QUEUE_DEPTH_CHUNKS: nat := 4

  type Chunk = seq<Byte>

  datatype Local = Writing | Held(bytes: seq<Byte>) | Gone

  datatype Answer = Pending | Succeeded(checksum: string) | Failed

  /** One node while it writes and forwards. `received` is what came from upstream, of which
      `holding` waits for room in the queue; `written` has been given to the local store;
      `None` in the queue is the sentinel that ends the forwarding. */
  datatype Hop = Hop(
    received: seq<Chunk>, holding: Option<Chunk>, ended: bool, complete: bool,
    queue: seq<Option<Chunk>>, sentinel: bool, forwarded: seq<Chunk>, closed: bool,
    written: seq<Chunk>, local: Local, downstream: Answer, answer: Answer)

  const FRESH_HOP: Hop := Hop([], None, false, false, [], false, [], false, [], Writing, Pending, Pending)

  datatype Event =
    | Take(chunk: Chunk)
    | Enqueue
    | UpstreamEnds(complete: bool)
    | PutSentinel
    | Forward
    | LocalStores
    | LocalFails
    | DownstreamAnswers(answer: Answer)
    | Decide

  /** When each step can happen: `put` waits for room, the local write ends when the stream
      does, the answer is looked at once both sides are over. */
  predicate Enabled(h: Hop, e: Event) {
    match e
    case Take(_) => !h.ended && h.holding.None? && h.local.Writing?
    case Enqueue => h.holding.Some? && |h.queue| < QUEUE_DEPTH_CHUNKS && h.local.Writing?
    case UpstreamEnds(_) => !h.ended && h.holding.None? && h.local.Writing?
    case PutSentinel => h.ended && !h.sentinel && |h.queue| < QUEUE_DEPTH_CHUNKS
    case Forward => h.queue != [] && h.downstream.Pending?
    case LocalStores => h.local.Writing? && h.ended && h.complete && h.sentinel
    case LocalFails => h.local.Writing?
    case DownstreamAnswers(a) => h.downstream.Pending? && !a.Pending?
    case Decide => h.local.Held? && !h.downstream.Pending? && h.answer.Pending?
  }

  function Advance(h: Hop, e: Event, hash: seq<Byte> -> string): Hop
    requires Enabled(h, e)
  {
    match e
    case Take(chunk) => h.(received := h.received + [chunk], holding := Some(chunk))
    case Enqueue => h.(queue := h.queue + [h.holding], written := h.written + [h.holding.value], holding := None)
    case UpstreamEnds(complete) => h.(ended := true, complete := complete)
    case PutSentinel => h.(queue := h.queue + [None], sentinel := true)
    case Forward =>
      (match h.queue[0]
       case Some(chunk) => h.(queue := h.queue[1..], forwarded := h.forwarded + [chunk])
       case None => h.(queue := h.queue[1..], closed := true))
    case LocalStores => h.(local := Held(Flatten(h.written)))
    case LocalFails => h.(local := Gone, answer := Failed, ended := true, complete := false, holding := None)
    case DownstreamAnswers(answer) => h.(downstream := answer)
    case Decide =>
      if h.downstream == Succeeded(hash(h.local.bytes)) then h.(answer := h.downstream)
      else h.(local := Gone, answer := Failed)
  }

  /** The chunks in a queue. */
  function Chunks(queue: seq<Option<Chunk>>): seq<Chunk> {
    if queue == [] then []
    else (if queue[0].Some? then [queue[0].value] else []) + Chunks(queue[1..])
  }

  lemma {:induction false} ChunksConcat(xs: seq<Option<Chunk>>, ys: seq<Option<Chunk>>)
    ensures Chunks(xs + ys) == Chunks(xs) + Chunks(ys)
  {
    if xs == [] {
      assert xs + ys == ys;
    } else {
      assert (xs + ys)[1..] == xs[1..] + ys;
      ChunksConcat(xs[1..], ys);
      var head := if xs[0].Some? then [xs[0].value] else [];
      assert head + (Chunks(xs[1..]) + Chunks(ys)) == (head + Chunks(xs[1..])) + Chunks(ys);
    }
  }

  lemma {:induction false} ChunksOfOne(item: Option<Chunk>)
    ensures Chunks([item]) == if item.Some? then [item.value] else []
  {
    assert [item][1..] == [];
  }

  ghost predicate QueueOk(h: Hop) {
    && |h.queue| <= QUEUE_DEPTH_CHUNKS
    && (forall i :: 0 <= i < |h.queue| ==> (h.queue[i].None? <==> h.sentinel && !h.closed && i == |h.queue| - 1))
    && (h.sentinel && !h.closed ==> h.queue != [])
    && (h.closed ==> h.sentinel && h.queue == [])
  }

  ghost predicate Inv(h: Hop, hash: seq<Byte> -> string) {
    && QueueOk(h)
    && h.forwarded + Chunks(h.queue) == h.written
    && h.written <= h.received
    && (h.local.Writing? ==> h.received == h.written + if h.holding.Some? then [h.holding.value] else [])
    && (h.sentinel ==> h.ended) && (h.ended ==> h.holding.None?)
    && (h.local.Held? ==> h.ended && h.complete && h.written == h.received && h.local.bytes == Flatten(h.received))
    && (h.answer.Succeeded? ==> h.local.Held? && h.downstream == h.answer && h.answer.checksum == hash(h.local.bytes))
    && (h.answer.Failed? ==> h.local.Gone?) && (h.local.Writing? ==> h.answer.Pending?)
  }

  lemma {:induction false} ForwardKeepsInv(h: Hop, hash: seq<Byte> -> string)
    requires Inv(h, hash) && Enabled(h, Forward)
    ensures Inv(Advance(h, Forward, hash), hash)
  {
    ForwardKeepsOrder(h.queue, h.forwarded);
    ForwardKeepsQueue(h, hash);
  }

  lemma {:induction false} ForwardKeepsOrder(queue: seq<Option<Chunk>>, forwarded: seq<Chunk>)
    requires queue != []
    ensures forwarded + Chunks(queue)
            == (if queue[0].Some? then forwarded + [queue[0].value] else forwarded) + Chunks(queue[1..])
  {
  }

  lemma {:induction false} ForwardKeepsQueue(h: Hop, hash: seq<Byte> -> string)
    requires QueueOk(h) && Enabled(h, Forward)
    ensures QueueOk(Advance(h, Forward, hash))
  {
  }

  lemma {:induction false} EnqueueKeepsInv(h: Hop, hash: seq<Byte> -> string)
    requires Inv(h, hash) && Enabled(h, Enqueue)
    ensures Inv(Advance(h, Enqueue, hash), hash)
  {
    ChunksConcat(h.queue, [h.holding]);
    ChunksOfOne(h.holding);
    assert h.forwarded + (Chunks(h.queue) + [h.holding.value]) == (h.forwarded + Chunks(h.queue)) + [h.holding.value];
  }

  lemma {:induction false} SentinelKeepsInv(h: Hop, hash: seq<Byte> -> string)
    requires Inv(h, hash) && Enabled(h, PutSentinel)
    ensures Inv(Advance(h, PutSentinel, hash), hash)
  {
    ChunksConcat(h.queue, [None]);
    ChunksOfOne(None);
    assert Chunks(h.queue) + [] == Chunks(h.queue);
  }

  lemma {:induction false} UpstreamKeepsInv(h: Hop, e: Event, hash: seq<Byte> -> string)
    requires Inv(h, hash) && Enabled(h, e) && (e.Take? || e.UpstreamEnds?)
    ensures Inv(Advance(h, e, hash), hash)
  {
  }

  lemma {:induction false} OutcomeKeepsInv(h: Hop, e: Event, hash: seq<Byte> -> string)
    requires Inv(h, hash) && Enabled(h, e) && (e.LocalStores? || e.LocalFails? || e.DownstreamAnswers? || e.Decide?)
    ensures Inv(Advance(h, e, hash), hash)
  {
  }

  lemma {:induction false} StepKeepsInv(h: Hop, e: Event, hash: seq<Byte> -> string)
    requires Inv(h, hash) && Enabled(h, e)
    ensures Inv(Advance(h, e, hash), hash)
  {
    match e
    case Enqueue => EnqueueKeepsInv(h, hash);
    case PutSentinel => SentinelKeepsInv(h, hash);
    case Forward => ForwardKeepsInv(h, hash);
    case Take(_) => UpstreamKeepsInv(h, e, hash);
    case UpstreamEnds(_) => UpstreamKeepsInv(h, e, hash);
    case _ => OutcomeKeepsInv(h, e, hash);
  }

  ghost predicate EnabledRun(h: Hop, events: seq<Event>, hash: seq<Byte> -> string)
    decreases |events|
  {
    events == [] || (Enabled(h, events[0]) && EnabledRun(Advance(h, events[0], hash), events[1..], hash))
  }

  ghost function End(h: Hop, events: seq<Event>, hash: seq<Byte> -> string): Hop
    requires EnabledRun(h, events, hash)
    decreases |events|
  {
    if events == [] then h else End(Advance(h, events[0], hash), events[1..], hash)
  }

  lemma {:induction false} RunKeepsInv(h: Hop, events: seq<Event>, hash: seq<Byte> -> string)
    requires Inv(h, hash) && EnabledRun(h, events, hash)
    ensures Inv(End(h, events, hash), hash)
    decreases |events|
  {
    if events != [] {
      StepKeepsInv(h, events[0], hash);
      RunKeepsInv(Advance(h, events[0], hash), events[1..], hash);
    }
  }

  /** Over any run of a node: what it forwarded is a prefix of what it received, with at most
      `QUEUE_DEPTH_CHUNKS` waiting; and once it has answered anything but success, or has
      seen the next node fail and decided, it holds no copy. */
  lemma {:induction false} HopIsSafe(events: seq<Event>, hash: seq<Byte> -> string)
    requires EnabledRun(FRESH_HOP, events, hash)
    ensures var h := End(FRESH_HOP, events, hash);
            && h.forwarded <= h.received && |h.queue| <= 4
            && (h.answer.Failed? ==> h.local.Gone?)
            && (h.downstream.Failed? && !h.answer.Pending? ==> h.local.Gone?)
  {
    RunKeepsInv(FRESH_HOP, events, hash);
  }

  // ----- Success -----

  ghost predicate LocalWriteHolds(events: seq<Event>) {
    forall i :: 0 <= i < |events| ==> !events[i].LocalFails?
  }

  /** A copy was discarded only because the next node did not confirm these very bytes. */
  ghost predicate DiscardedForACause(h: Hop, hash: seq<Byte> -> string) {
    h.local.Gone? ==>
      h.ended && !h.downstream.Pending? && h.downstream != Succeeded(hash(Flatten(h.received)))
  }

  lemma {:induction false} DiscardsForACause(h: Hop, events: seq<Event>, hash: seq<Byte> -> string)
    requires Inv(h, hash) && DiscardedForACause(h, hash) && EnabledRun(h, events, hash) && LocalWriteHolds(events)
    ensures DiscardedForACause(End(h, events, hash), hash)
    decreases |events|
  {
    if events != [] {
      assert !events[0].LocalFails?;
      StepKeepsInv(h, events[0], hash);
      DiscardsForACause(Advance(h, events[0], hash), events[1..], hash);
    }
  }

  /** A node whose own write holds answers success exactly when the next node confirmed the
      bytes that it received itself; its answer is then the checksum of those bytes. */
  lemma {:induction false} AnswersWhatIsConfirmed(events: seq<Event>, hash: seq<Byte> -> string)
    requires EnabledRun(FRESH_HOP, events, hash) && LocalWriteHolds(events)
    ensures var h := End(FRESH_HOP, events, hash);
            !h.answer.Pending? ==>
              (h.answer == Succeeded(hash(Flatten(h.received)))
               <==> h.downstream == Succeeded(hash(Flatten(h.received))))
              && (h.answer.Succeeded? || h.answer.Failed?)
              && (h.answer.Succeeded? ==> h.answer == h.downstream && h.local == Held(Flatten(h.received)))
  {
    RunKeepsInv(FRESH_HOP, events, hash);
    DiscardsForACause(FRESH_HOP, events, hash);
    AnswersDecided(FRESH_HOP, events, hash);
  }

  /** An answer was decided on a copy, which a failure discards. */
  ghost predicate Decided(h: Hop) {
    h.answer.Failed? <==> h.local.Gone?
  }

  lemma {:induction false} AnswersDecided(h: Hop, events: seq<Event>, hash: seq<Byte> -> string)
    requires Inv(h, hash) && Decided(h) && EnabledRun(h, events, hash)
    ensures Decided(End(h, events, hash))
    decreases |events|
  {
    if events != [] {
      StepKeepsInv(h, events[0], hash);
      AnswersDecided(Advance(h, events[0], hash), events[1..], hash);
    }
  }

  /** A node that has not answered can always go on while the next one takes chunks, and its
      write fails only when the stream was cut. */
  lemma {:induction false} NeverStuck(h: Hop, hash: seq<Byte> -> string) returns (e: Event)
    requires Inv(h, hash) && Decided(h) && h.answer.Pending? && (h.downstream.Pending? || |h.queue| < 4)
    ensures Enabled(h, e) && (e.LocalFails? ==> h.ended && !h.complete)
  {
    if h.local.Held? {
      e := if h.downstream.Pending? then DownstreamAnswers(Failed) else Decide;
    } else if h.holding.Some? {
      e := if |h.queue| < QUEUE_DEPTH_CHUNKS then Enqueue else Forward;
    } else if !h.ended {
      e := UpstreamEnds(true);
    } else if !h.sentinel {
      e := if |h.queue| < QUEUE_DEPTH_CHUNKS then PutSentinel else Forward;
    } else {
      e := if h.complete then LocalStores else LocalFails;
    }
  }

  // ----- A healthy chain -----

  /** A node after taking, keeping and forwarding some chunks. */
  function Fed(chunks: seq<Chunk>): Hop {
    FRESH_HOP.(received := chunks, forwarded := chunks, written := chunks)
  }

  lemma {:induction false} RunConcat(h: Hop, xs: seq<Event>, ys: seq<Event>, hash: seq<Byte> -> string)
    requires EnabledRun(h, xs, hash) && EnabledRun(End(h, xs, hash), ys, hash)
    ensures EnabledRun(h, xs + ys, hash) && End(h, xs + ys, hash) == End(End(h, xs, hash), ys, hash)
    decreases |xs|
  {
    if xs == [] {
      assert xs + ys == ys;
    } else {
      assert (xs + ys)[1..] == xs[1..] + ys;
      RunConcat(Advance(h, xs[0], hash), xs[1..], ys, hash);
    }
  }

  lemma {:induction false} RunOne(h: Hop, e: Event, hash: seq<Byte> -> string)
    requires Enabled(h, e)
    ensures EnabledRun(h, [e], hash) && End(h, [e], hash) == Advance(h, e, hash)
  {
    assert [e][1..] == [];
  }

  lemma {:induction false} ThenOne(h: Hop, events: seq<Event>, e: Event, hash: seq<Byte> -> string)
    requires EnabledRun(h, events, hash) && Enabled(End(h, events, hash), e)
    ensures EnabledRun(h, events + [e], hash) && End(h, events + [e], hash) == Advance(End(h, events, hash), e, hash)
  {
    RunOne(End(h, events, hash), e, hash);
    RunConcat(h, events, [e], hash);
  }

  lemma {:induction false} FeedsAll(chunks: seq<Chunk>, hash: seq<Byte> -> string) returns (events: seq<Event>)
    ensures EnabledRun(FRESH_HOP, events, hash) && End(FRESH_HOP, events, hash) == Fed(chunks)
  {
    if chunks == [] {
      events := [];
    } else {
      var front, last := chunks[..|chunks| - 1], chunks[|chunks| - 1];
      events := FeedsAll(front, hash);
      ThenOne(FRESH_HOP, events, Take(last), hash);
      ThenOne(FRESH_HOP, events + [Take(last)], Enqueue, hash);
      ThenOne(FRESH_HOP, events + [Take(last)] + [Enqueue], Forward, hash);
      events := events + [Take(last)] + [Enqueue] + [Forward];
      assert front + [last] == chunks;
      assert [Some(last)][1..] == [];
    }
  }

  /** A node that succeeded with some chunks. */
  function Successful(chunks: seq<Chunk>, hash: seq<Byte> -> string): Hop {
    var ok := Succeeded(hash(Flatten(chunks)));
    Fed(chunks).(ended := true, complete := true, sentinel := true, closed := true, local := Held(Flatten(chunks)),
                 downstream := ok, answer := ok)
  }

  /** If every node downstream takes the chunks and confirms them, so does this one. */
  lemma {:induction false} SuccessIsReached(chunks: seq<Chunk>, hash: seq<Byte> -> string)
    ensures Reached(Successful(chunks, hash), hash)
  {
    var events := FeedsAll(chunks, hash);
    var ok := Succeeded(hash(Flatten(chunks)));
    ThenOne(FRESH_HOP, events, UpstreamEnds(true), hash);
    events := events + [UpstreamEnds(true)];
    ThenOne(FRESH_HOP, events, PutSentinel, hash);
    events := events + [PutSentinel];
    ThenOne(FRESH_HOP, events, Forward, hash);
    events := events + [Forward];
    ThenOne(FRESH_HOP, events, LocalStores, hash);
    events := events + [LocalStores];
    ThenOne(FRESH_HOP, events, DownstreamAnswers(ok), hash);
    events := events + [DownstreamAnswers(ok)];
    ThenOne(FRESH_HOP, events, Decide, hash);
    events := events + [Decide];
    assert End(FRESH_HOP, events, hash) == Successful(chunks, hash);
  }

  /** For any chunks and any number of nodes there is a run of the chain in which every node
      holds them and the head answers success. */
  lemma {:induction false} HealthyChainSucceeds(chunks: seq<Chunk>, n: nat, hash: seq<Byte> -> string)
    returns (nodes: seq<Hop>)
    requires n > 0
    ensures |nodes| == n && Chain(nodes, hash) && nodes[0].received == chunks
    ensures forall i :: 0 <= i < n ==>
              nodes[i].answer == Succeeded(hash(Flatten(chunks))) && nodes[i].local == Held(Flatten(chunks))
  {
    SuccessIsReached(chunks, hash);
    nodes := seq(n, (i: nat) => Successful(chunks, hash));
  }

  // ----- A chain of nodes -----

  /** The last node stores what it receives and forwards nothing. */
  ghost predicate IsTail(h: Hop, hash: seq<Byte> -> string) {
    h.answer.Succeeded? ==>
      h.complete && h.local == Held(Flatten(h.received)) && h.answer.checksum == hash(Flatten(h.received))
  }

  ghost predicate Reached(h: Hop, hash: seq<Byte> -> string) {
    exists events :: EnabledRun(FRESH_HOP, events, hash) && h == End(FRESH_HOP, events, hash)
  }

  /** A success travels upstream only from a node that answered it after reading the stream
      to its end; a failure may be any loss on the way. */
  ghost predicate Linked(h: Hop, next: Hop) {
    h.downstream.Succeeded? ==> next.answer == h.downstream && h.closed && next.received == h.forwarded
  }

  ghost predicate Chain(nodes: seq<Hop>, hash: seq<Byte> -> string) {
    && nodes != []
    && IsTail(nodes[|nodes| - 1], hash)
    && (forall i :: 0 <= i < |nodes| - 1 ==> Reached(nodes[i], hash))
    && forall i :: 0 <= i < |nodes| - 1 ==> Linked(nodes[i], nodes[i + 1])
  }

  lemma {:induction false} ReachedInv(h: Hop, hash: seq<Byte> -> string)
    requires Reached(h, hash)
    ensures Inv(h, hash)
  {
    var events :| EnabledRun(FRESH_HOP, events, hash) && h == End(FRESH_HOP, events, hash);
    RunKeepsInv(FRESH_HOP, events, hash);
  }

  /** If the head of a chain of any length succeeds, every node holds exactly the bytes the
      head received, and the checksum answered is theirs. */
  lemma {:induction false} HeadSuccessMeansEveryCopy(nodes: seq<Hop>, hash: seq<Byte> -> string, i: nat)
    requires Chain(nodes, hash) && nodes[0].answer.Succeeded? && i < |nodes|
    ensures nodes[i].local == Held(Flatten(nodes[0].received))
    ensures nodes[0].answer.checksum == hash(Flatten(nodes[0].received)) && nodes[i].answer == nodes[0].answer
    decreases |nodes|
  {
    if |nodes| > 1 {
      ReachedInv(nodes[0], hash);
      assert Linked(nodes[0], nodes[1]);
      assert Chunks([]) == [];
      assert nodes[1].received == nodes[0].received;
      var rest := nodes[1..];
      forall k | 0 <= k < |rest| - 1 ensures Reached(rest[k], hash) && Linked(rest[k], rest[k + 1]) {
        assert Reached(nodes[k + 1], hash) && Linked(nodes[k + 1], nodes[k + 2]);
      }
      if i > 0 {
        HeadSuccessMeansEveryCopy(rest, hash, i - 1);
      }
    }
  }

  /** A failure anywhere downstream of the head leaves no copy at the head, once it answers. */
  lemma {:induction false} DownstreamFailureLeavesNoCopy(nodes: seq<Hop>, hash: seq<Byte> -> string, k: nat)
    requires Chain(nodes, hash) && 0 < k < |nodes| && !nodes[k].answer.Succeeded? && !nodes[0].answer.Pending?
    ensures nodes[0].local.Gone? && nodes[0].answer.Failed?
  {
    ReachedInv(nodes[0], hash);
    if nodes[0].answer.Succeeded? {
      HeadSuccessMeansEveryCopy(nodes, hash, k);
    }
  }
}
