/** The leader's service object: replica placement, upload sizes, and the handlers that
    submit a command and then delete blocks on the DataNodes. */
module ControlServicer {
  import opened Common
  import opened Chunking
  import opened Tree
  import opened Mutations
  import opened History
  import opened Conservation
  import opened Sizes
  import opened Deduplication
  import opened ReplicatedLog
  import opened Handlers

  // ----- Sizes announced by BeginUpload -----

  /** Division rounded up, as the handler writes it. */
  function BlockCount(size: int, blockSize: nat): int
    requires blockSize > 0
  {
    -((-size) / blockSize)
  }

  lemma {:induction false} BlockCountFits(size: int, blockSize: nat)
    requires blockSize > 0 && size > 0
    ensures BlockCount(size, blockSize) > 0 && CountFits(BlockCount(size, blockSize), size, blockSize)
  {
    var count := BlockCount(size, blockSize);
    var rest: int := (0 - size) % blockSize;
    assert 0 - size == (0 - size) / blockSize * blockSize + rest;
    assert count * blockSize == size + rest by {
      assert (-count) * blockSize == -(count * blockSize);
    }
    Multiples(count, blockSize);
    StartIsProduct(count, blockSize);
    StartIsProduct(count - 1, blockSize);
    assert count * blockSize == (count - 1) * blockSize + blockSize;
  }

  lemma {:induction false} Multiples(k: int, n: nat)
    ensures k >= 1 ==> k * n >= n
    ensures k <= 0 ==> k * n <= 0
    ensures k <= -1 ==> k * n <= 0 - n
  {
    if k >= 1 {
      assert k * n == (k - 1) * n + n;
    } else if k <= -1 {
      assert k * n == (k + 1) * n - n;
    }
  }

  /** Sizes handed out for the blocks of an upload. */
  ghost predicate Announced(sizes: seq<int>, total: int, blockSize: nat) {
    forall i {:trigger sizes[i]} :: 0 <= i < |sizes| ==> sizes[i] == Max(0, Min(blockSize, total - Start(i, blockSize)))
  }

  /** With one block per full or partial `blockSize`, the announced sizes add up to the
      upload, and they are the sizes that keep the file laid out. */
  lemma {:induction false} AnnouncedSizesAddUp(sizes: seq<int>, total: nat, blockSize: nat)
    requires blockSize > 0 && total > 0 && Announced(sizes, total, blockSize)
    requires |sizes| == BlockCount(total, blockSize)
    ensures Layout(sizes, blockSize) && Sum(sizes) == total
    ensures forall i :: 0 <= i < |sizes| ==> AnnouncedSize(sizes[i], i, |sizes|, blockSize)
  {
    BlockCountFits(total, blockSize);
    forall i {:trigger sizes[i]} | 0 <= i < |sizes| ensures sizes[i] == Min(blockSize, total - Start(i, blockSize)) {
      StartMono(i, |sizes| - 1, blockSize);
    }
    SizedIsLayout(sizes, total, blockSize);
  }

  // ----- Placement -----

  /** The nodes one round-robin call picks. */
  ghost predicate PickedFrom(alive: seq<string>, start: nat, count: nat, picked: seq<string>)
    requires alive != []
  {
    |picked| == count && forall i {:trigger picked[i]} :: 0 <= i < count ==>
        picked[i] == alive[PickedPosition(|alive|, start, 0, i)]
  }

  lemma {:induction false} SameResidue(a: nat, b: nat, n: nat)
    requires n > 0 && a <= b < a + n && a % n == b % n
    ensures a == b
  {
    assert a == a / n * n + a % n && b == b / n * n + b % n;
    assert b - a == (b / n - a / n) * n by {
      assert (b / n - a / n) * n == b / n * n - a / n * n;
    }
    Multiples(b / n - a / n, n);
  }

  /** A block never gets the same node twice. */
  lemma {:induction false} PickedAreDistinct(alive: seq<string>, start: nat, count: nat, picked: seq<string>)
    requires alive != [] && Distinct(alive) && count <= |alive| && PickedFrom(alive, start, count, picked)
    ensures Distinct(picked)
  {
    forall i, j | 0 <= i < j < |picked| ensures picked[i] != picked[j] {
      if (start + i) % |alive| == (start + j) % |alive| {
        SameResidue(start + i, start + j, |alive|);
      }
    }
  }

  /** The position that a call picks for a rank, `call` calls after offset `start`. */
  function PickedPosition(n: nat, start: nat, call: nat, rank: nat): nat
    requires n > 0
  {
    (start + call + rank) % n
  }

  lemma {:induction false} Advance(x: nat, d: nat, n: nat)
    requires d < n
    ensures (x + d) % n == if x % n + d < n then x % n + d else x % n + d - n
  {
    var q, b := x / n, x % n;
    assert x == q * n + b;
    assert (q + 1) * n == q * n + n;
    if b + d < n {
      Residue(x + d, q, b + d, n);
    } else {
      Residue(x + d, q + 1, b + d - n, n);
    }
  }

  /** `_next_offset` after some calls stands where counting from the first would be. */
  lemma {:induction false} OffsetsCompose(n: nat, start: nat, call: nat, rank: nat)
    requires rank < n
    ensures PickedPosition(n, (start + call) % n, 0, rank) == PickedPosition(n, start, call, rank)
    ensures ((start + call) % n + 1) % n == (start + (call + 1)) % n
  {
    var x := start + call;
    Residue(x % n, 0, x % n, n);
    Advance(x % n, rank, n);
    Advance(x, rank, n);
    if n > 1 {
      Advance(x % n, 1, n);
      Advance(x, 1, n);
    }
  }

  /** Over `|alive|` consecutive calls every node is, exactly once, the replica of each rank. */
  lemma {:induction false} EveryNodeTakesEachRankOnce(n: nat, start: nat, rank: nat, node: nat) returns (call: nat)
    requires node < n && rank < n
    ensures call < n && PickedPosition(n, start, call, rank) == node
    ensures forall other: nat :: other < n && PickedPosition(n, start, other, rank) == node ==> other == call
  {
    var base := (start + rank) % n;
    call := if node >= base then node - base else node - base + n;
    Advance(start + rank, call, n);
    assert start + rank + call == start + call + rank;
    forall other: nat | other < n && PickedPosition(n, start, other, rank) == node ensures other == call {
      Advance(start + rank, other, n);
      assert start + rank + other == start + other + rank;
    }
  }

  lemma {:induction false} Residue(x: nat, q: nat, r: nat, n: nat)
    requires r < n && x == q * n + r
    ensures x % n == r
  {
    var q', r' := x / n, x % n;
    assert x == q' * n + r';
    assert (q' - q) * n == r - r' by {
      assert (q' - q) * n == q' * n - q * n;
    }
    Multiples(q' - q, n);
  }

  // ----- The object -----

  /** What can become of a submitted command: it never reaches the log, or it is applied, at
      once or later, and the leader may or may not learn of it. */
  datatype Fate = NotLeader | Lost | Late | Unconfirmed | Confirmed

  /** A request to one DataNode to delete one block. */
  datatype Deletion = Deletion(id: string, address: string)

  datatype Location = Location(id: string, addresses: seq<string>, size: int)

  /** One of the first `count` blocks has a copy there. */
  ghost predicate Names(blocks: seq<BlockRecord>, count: nat, d: Deletion) {
    exists i :: 0 <= i < count && i < |blocks| && blocks[i].id == d.id && d.address in blocks[i].addresses
  }

  /** One deletion for each copy of each block, and no other. */
  ghost predicate Deletes(deletions: seq<Deletion>, blocks: seq<BlockRecord>) {
    forall d :: d in deletions <==> Names(blocks, |blocks|, d)
  }

  /** Where the pick for block `i` starts when that for the first starts at `start`. */
  function OffsetAt(alive: nat -> seq<string>, start: nat, i: nat): nat {
    if i == 0 then start
    else if alive(i - 1) == [] then OffsetAt(alive, start, i - 1)
    else (OffsetAt(alive, start, i - 1) + 1) % |alive(i - 1)|
  }

  /** Enough nodes were alive for each of the first `count` picks. */
  predicate Enough(alive: nat -> seq<string>, count: nat, atLeast: nat) {
    forall i: nat :: i < count ==> |alive(i)| >= atLeast
  }

  /** The entry of a command: its operation id, after the name of an authenticated caller. */
  function EntryFor(principal: Principal, opId: string, op: Op): Command {
    Entry(if principal.User? then principal.name + ":" + opId else opId, Some(op))
  }

  /** It is the key that tells callers apart. */
  lemma {:induction false} EntryKeysAreInjective(p: Principal, opId: string, op: Op, p': Principal, opId': string,
        op': Op)
    requires WellNamed(Request(p, opId, Some(op))) && WellNamed(Request(p', opId', Some(op')))
    ensures EntryFor(p, opId, op).key == EntryFor(p', opId', op').key <==> p == p' && opId == opId'
  {
    if EntryFor(p, opId, op).key == EntryFor(p', opId', op').key {
      KeysAreInjective(Request(p, opId, Some(op)), Request(p', opId', Some(op')));
    }
  }

  /** The log once the fate of a submission is known: it grows by the entry or stays. */
  function Submitted(log: seq<Command>, principal: Principal, opId: string, op: Op, fate: Fate): seq<Command> {
    if opId != "" && (fate.Unconfirmed? || fate.Confirmed?) then log + [EntryFor(principal, opId, op)] else log
  }

  /** And what is still on its way. */
  function Delayed(inTransit: seq<Command>, principal: Principal, opId: string, op: Op, fate: Fate): seq<Command> {
    if opId != "" && fate.Late? then inTransit + [EntryFor(principal, opId, op)] else inTransit
  }

  class Servicer {
    const replicated: ReplicatedTree
    const blockSize: nat
    const replicationFactor: nat
    const minWriteReplicas: nat
    var nextOffset: nat
    /** Commands submitted without an answer that the log may still apply. */
    var inTransit: seq<Command>
    ghost var log: seq<Command>

    ghost predicate Valid()
      reads this, replicated, replicated.tree
    {
      && replicated.Valid() && replicated.View() == After(LOG, log)
      && blockSize > 0 && 1 <= minWriteReplicas <= replicationFactor
    }

    constructor (blockSize: nat, replicationFactor: nat, minWriteReplicas: nat)
      requires blockSize > 0 && 1 <= minWriteReplicas <= replicationFactor
      ensures Valid() && log == [] && inTransit == [] && fresh(replicated) && fresh(replicated.tree)
    {
      this.blockSize, this.replicationFactor, this.minWriteReplicas := blockSize, replicationFactor, minWriteReplicas;
      replicated := new ReplicatedTree();
      nextOffset, inTransit, log := 0, [], [];
    }

    /** `_pick_replicas`: too few live nodes is an error, and each call starts one node
        further than the last. */
    method PickReplicas(alive: seq<string>) returns (r: Option<seq<string>>)
      requires 1 <= minWriteReplicas <= replicationFactor
      modifies this`nextOffset
      ensures r.None? <==> |alive| < minWriteReplicas
      ensures r.None? ==> nextOffset == old(nextOffset)
      ensures r.Some? ==> PickedFrom(alive, old(nextOffset), Min(replicationFactor, |alive|), r.value)
                          && nextOffset == (old(nextOffset) + 1) % |alive|
      ensures r.Some? ==> |r.value| == Min(replicationFactor, |alive|)
      ensures r.Some? ==> forall i :: 0 <= i < |r.value| ==> r.value[i] == alive[(old(nextOffset) + i) % |alive|]
    {
      if |alive| < minWriteReplicas {
        return None;
      }
      var count := Min(replicationFactor, |alive|);
      var start := nextOffset;
      nextOffset := (start + 1) % |alive|;
      var picked: seq<string> := [];
      for i := 0 to count
        invariant PickedFrom(alive, start, i, picked)
      {
        picked := picked + [alive[(start + i) % |alive|]];
      }
      return Some(picked);
    }

    /** `_commit`. `None` when the leader cannot confirm: the command may be in the log, come
        into it later, or never, and the client is told to retry with the same operation id. */
    method Commit(principal: Principal, opId: string, op: Op, fate: Fate) returns (r: Option<Result<Value>>)
      requires Valid()
      modifies this`log, this`inTransit, replicated, replicated.tree
      ensures Valid()
      ensures r.Some? <==> opId != "" && fate.Confirmed?
      ensures log == Submitted(old(log), principal, opId, op, fate)
      ensures inTransit == Delayed(old(inTransit), principal, opId, op, fate)
      ensures var entry := Entry(if principal.User? then principal.name + ":" + opId else opId, Some(op));
              && log == old(log) + (if opId != "" && (fate.Unconfirmed? || fate.Confirmed?) then [entry] else [])
              && inTransit == old(inTransit) + (if opId != "" && fate.Late? then [entry] else [])
      ensures r.Some? ==> r.value == Answer(LOG, log, |old(log)|)
                          && (replicated.View(), r.value)
                              == Apply(LOG, old(replicated.View()), EntryFor(principal, opId, op))
    {
      if opId == "" || fate.NotLeader? || fate.Lost? {
        return None;
      }
      var e := EntryFor(principal, opId, op);
      if fate.Late? {
        inTransit := inTransit + [e];
        return None;
      }
      var outcome := Append(e);
      return if fate.Confirmed? then Some(outcome) else None;
    }

    /** The log grows by one entry. */
    method Append(e: Command) returns (outcome: Result<Value>)
      requires Valid()
      modifies this`log, replicated, replicated.tree
      ensures Valid() && log == old(log) + [e] && outcome == Answer(LOG, log, |old(log)|)
      ensures (replicated.View(), outcome) == Apply(LOG, old(replicated.View()), e)
    {
      outcome := replicated.ApplyCommand(e.key, e.command);
      log := log + [e];
      assert log[..|log| - 1] == old(log);
    }

    /** The log applies late a command whose submitter is long gone. */
    method Deliver(k: nat)
      requires Valid() && k < |inTransit|
      modifies this`log, this`inTransit, replicated, replicated.tree
      ensures Valid() && log == old(log) + [old(inTransit)[k]]
      ensures inTransit == old(inTransit)[..k] + old(inTransit)[k + 1..]
    {
      var e := inTransit[k];
      inTransit := inTransit[..k] + inTransit[k + 1..];
      var _ := Append(e);
    }

    /** The log applies what other handlers submit. */
    method AppendOthers(others: seq<Command>)
      requires Valid()
      modifies this`log, replicated, replicated.tree
      ensures Valid() && log == old(log) + others
      ensures replicated.View() == Continue(LOG, old(replicated.View()), others)
    {
      for i := 0 to |others|
        invariant Valid() && log == old(log) + others[..i]
        invariant replicated.View() == Continue(LOG, old(replicated.View()), others[..i])
      {
        OneMore(old(replicated.View()), others, i);
        var _ := Append(others[i]);
      }
      assert others[..|others|] == others;
    }

    /** `_delete_blocks`. */
    method DeleteBlocks(blocks: seq<BlockRecord>) returns (deletions: seq<Deletion>)
      ensures Deletes(deletions, blocks)
    {
      deletions := [];
      for i := 0 to |blocks|
        invariant forall d :: d in deletions <==> Names(blocks, i, d)
      {
        ghost var before := deletions;
        for k := 0 to |blocks[i].addresses|
          invariant forall d :: d in deletions <==>
            d in before || (d.id == blocks[i].id && d.address in blocks[i].addresses[..k])
        {
          deletions := deletions + [Deletion(blocks[i].id, blocks[i].addresses[k])];
        }
        assert blocks[i].addresses[..|blocks[i].addresses|] == blocks[i].addresses;
      }
    }

    /** The handlers of Remove, CommitWrite and AbortWrite: submit, then delete what the
        log's outcome names. No copy of a block still in use is deleted, even when the
        outcome comes from the table. */
    method CommitThenDelete(principal: Principal, opId: string, op: Op, fate: Fate)
      returns (r: Option<Result<Value>>, deletions: seq<Deletion>)
      requires Valid()
      modifies this`log, this`inTransit, replicated, replicated.tree
      ensures Valid() && old(log) <= log
      ensures r.Some? <==> opId != "" && fate.Confirmed?
      ensures log == Submitted(old(log), principal, opId, op, fate)
      ensures inTransit == Delayed(old(inTransit), principal, opId, op, fate)
      ensures r.Some? ==> r.value == Answer(LOG, log, |old(log)|)
      ensures Deletes(deletions, if r.Some? && r.value.Ok? then Discarded(r.value.value) else [])
      ensures FreshRun({}, Ops(Executed(LOG, log))) ==> SafeDeletions(deletions)
    {
      deletions := [];
      r := Commit(principal, opId, op, fate);
      if r.Some? && r.value.Ok? {
        deletions := DeleteBlocks(Discarded(r.value.value));
        DiscardedDeletionsAreSafe(deletions, |old(log)|);
      }
    }

    lemma {:induction false} DeletionsOf(deletions: seq<Deletion>, blocks: seq<BlockRecord>)
      requires Deletes(deletions, blocks)
      ensures NoneReferenced(replicated.View().tree, blocks) ==> SafeDeletions(deletions)
    {
      forall d | d in deletions && NoneReferenced(replicated.View().tree, blocks)
        ensures !Referenced(replicated.View().tree, d.id)
      {
        var k :| 0 <= k < |blocks| && blocks[k].id == d.id && d.address in blocks[k].addresses;
      }
    }

    /** No deletion concerns a block that the metadata names. */
    ghost predicate SafeDeletions(deletions: seq<Deletion>)
      reads this, replicated, replicated.tree
    {
      forall d :: d in deletions ==> !Referenced(replicated.View().tree, d.id)
    }

    lemma {:induction false} DiscardedDeletionsAreSafe(deletions: seq<Deletion>, j: nat)
      requires Valid() && j < |log| && Answer(LOG, log, j).Ok?
      requires Deletes(deletions, Discarded(Answer(LOG, log, j).value))
      ensures FreshRun({}, Ops(Executed(LOG, log))) ==> SafeDeletions(deletions)
    {
      if FreshRun({}, Ops(Executed(LOG, log))) {
        var blocks := Discarded(Answer(LOG, log, j).value);
        forall d | d in deletions ensures !Referenced(replicated.View().tree, d.id) {
          var k :| 0 <= k < |blocks| && blocks[k].id == d.id && d.address in blocks[k].addresses;
          DeletingAnsweredBlocksIsSafe(log, j, k);
        }
      }
    }

    /** A placement for each block, on the nodes found alive when its turn comes, each starting
        one node further than the one before. */
    method Propose(count: nat, ids: nat -> string, alive: nat -> seq<string>) returns (r: Option<seq<Placement>>)
      requires 1 <= minWriteReplicas <= replicationFactor
      modifies this`nextOffset
      ensures r.Some? <==> Enough(alive, count, minWriteReplicas)
      ensures r.Some? ==> Places(r.value, count, ids, alive, old(nextOffset))
      ensures r.Some? ==> nextOffset == OffsetAt(alive, old(nextOffset), count)
      ensures r.None? ==>
                exists i: nat :: i < count && |alive(i)| < minWriteReplicas && Enough(alive, i, minWriteReplicas)
                                           && nextOffset == OffsetAt(alive, old(nextOffset), i)
    {
      var proposed: seq<Placement> := [];
      for i := 0 to count
        invariant |proposed| == i && nextOffset == OffsetAt(alive, old(nextOffset), i)
        invariant Enough(alive, i, minWriteReplicas) && Places(proposed, i, ids, alive, old(nextOffset))
      {
        var picked := PickReplicas(alive(i));
        if picked.None? {
          return None;
        }
        OneMorePlaced(proposed, i, ids, alive, old(nextOffset), picked.value);
        proposed := proposed + [Placement(ids(i), picked.value)];
      }
      return Some(proposed);
    }

    /** As many nodes as there are copies, in turn from one on. */
    ghost predicate WellPicked(alive: seq<string>, start: nat, picked: seq<string>) {
      && alive != [] && |picked| == Min(replicationFactor, |alive|)
      && forall i :: 0 <= i < |picked| ==> picked[i] == alive[(start + i) % |alive|]
    }

    ghost predicate Places(placements: seq<Placement>, count: nat, ids: nat -> string, alive: nat -> seq<string>,
          start: nat)
    {
      && |placements| == count
      && forall i: nat {:trigger placements[i]} :: i < count ==>
           placements[i].id == ids(i) && WellPicked(alive(i), OffsetAt(alive, start, i), placements[i].addresses)
    }

    lemma {:induction false} OneMorePlaced(placements: seq<Placement>, i: nat, ids: nat -> string,
          alive: nat -> seq<string>, start: nat, picked: seq<string>)
      requires Places(placements, i, ids, alive, start) && WellPicked(alive(i), OffsetAt(alive, start, i), picked)
      ensures Places(placements + [Placement(ids(i), picked)], i + 1, ids, alive, start)
    {
    }

    /** The handler of BeginUpload. Ids and the set of live nodes come from outside. */
    method BeginUpload(principal: Principal, opId: string, path: string, sizeBytes: int, ids: nat -> string,
                       alive: nat -> seq<string>, now: real, lease: real, caller: Option<Caller>, fate: Fate)
      returns (r: Option<Result<seq<Location>>>, deletions: seq<Deletion>)
      requires Valid()
      modifies this, replicated, replicated.tree
      ensures Valid() && old(log) <= log
      ensures sizeBytes <= 0 ==> r == Some(Err(InvalidPath)) && nextOffset == old(nextOffset)
      ensures sizeBytes <= 0 || !Enough(alive, BlockCount(sizeBytes, blockSize), minWriteReplicas) ==>
                log == old(log) && inTransit == old(inTransit)
      ensures sizeBytes > 0 && Enough(alive, BlockCount(sizeBytes, blockSize), minWriteReplicas) ==>
                exists op :: OpensUpload(op, path, sizeBytes, ids, alive, old(nextOffset), now, lease, caller)
                             && log == Submitted(old(log), principal, opId, op, fate)
                             && inTransit == Delayed(old(inTransit), principal, opId, op, fate)
                             && nextOffset == OffsetAt(alive, old(nextOffset), BlockCount(sizeBytes, blockSize))
      ensures r.Some? <==> sizeBytes <= 0 || (Enough(alive, BlockCount(sizeBytes, blockSize), minWriteReplicas)
                                              && opId != "" && fate.Confirmed?)
      ensures r.Some? && sizeBytes > 0 ==>
                |log| == |old(log)| + 1 && Reports(r.value, deletions, Answer(LOG, log, |old(log)|), sizeBytes)
      ensures r.None? || sizeBytes <= 0 ==> deletions == []
      ensures FreshRun({}, Ops(Executed(LOG, log))) ==> SafeDeletions(deletions)
    {
      deletions := [];
      if sizeBytes <= 0 {
        return Some(Err(InvalidPath)), deletions;
      }
      var count := BlockCount(sizeBytes, blockSize);
      BlockCountFits(sizeBytes, blockSize);
      var proposed := Propose(count, ids, alive);
      if proposed.None? {
        return None, deletions;
      }
      var op := BeginUploadOp(path, proposed.value, now, lease, blockSize, caller);
      assert OpensUpload(op, path, sizeBytes, ids, alive, old(nextOffset), now, lease, caller);
      r, deletions := SubmitUpload(principal, opId, op, sizeBytes, fate);
    }

    /** What the handler does with its command: it submits it, deletes the blocks of the upload
        it replaced and locates the blocks, both by what the log answers. */
    method SubmitUpload(principal: Principal, opId: string, op: Op, sizeBytes: nat, fate: Fate)
      returns (r: Option<Result<seq<Location>>>, deletions: seq<Deletion>)
      requires Valid() && op.BeginUploadOp?
      modifies this`log, this`inTransit, replicated, replicated.tree
      ensures Valid() && old(log) <= log
      ensures log == Submitted(old(log), principal, opId, op, fate)
      ensures inTransit == Delayed(old(inTransit), principal, opId, op, fate)
      ensures FreshRun({}, Ops(Executed(LOG, log))) ==> SafeDeletions(deletions)
      ensures r.Some? <==> opId != "" && fate.Confirmed?
      ensures r.Some? ==>
                |log| == |old(log)| + 1 && Reports(r.value, deletions, Answer(LOG, log, |old(log)|), sizeBytes)
      ensures r.None? ==> deletions == []
    {
      deletions := [];
      var outcome := Commit(principal, opId, op, fate);
      if outcome.None? {
        return None, deletions;
      }
      if outcome.value.Err? {
        return Some(Err(outcome.value.error)), deletions;
      }
      if !outcome.value.value.Uploading? {
        return Some(Err(Internal)), deletions;
      }
      deletions := DeleteBlocks(outcome.value.value.stale);
      DiscardedDeletionsAreSafe(deletions, |old(log)|);
      var locations := LocateBlocks(outcome.value.value.placements, sizeBytes);
      return Some(Ok(locations)), deletions;
    }

    /** What the client hears: the error of the log, or where the blocks go that the log names. */
    ghost predicate Reports(r: Result<seq<Location>>, deletions: seq<Deletion>, answer: Result<Value>, sizeBytes: int) {
      if answer.Err? then r == Err(answer.error) && deletions == []
      else if !answer.value.Uploading? then r == Err(Internal) && deletions == []
      else r.Ok? && Locates(r.value, answer.value.placements, sizeBytes) && Deletes(deletions, answer.value.stale)
    }

    /** The command that the handler submits: every argument as it came, and a placement for
        each block. */
    ghost predicate OpensUpload(op: Op, path: string, sizeBytes: nat, ids: nat -> string, alive: nat -> seq<string>,
          start: nat, now: real, lease: real, caller: Option<Caller>)
      requires blockSize > 0 && sizeBytes > 0
      reads this
    {
      BlockCountFits(sizeBytes, blockSize);
      && op.BeginUploadOp? && op.path == path && op.now == now && op.lease == lease && op.blockSize == blockSize
      && op.caller == caller && Places(op.placements, BlockCount(sizeBytes, blockSize), ids, alive, start)
    }

    /** The locations follow the placements of the outcome, with the announced sizes. */
    ghost predicate Locates(locations: seq<Location>, placements: seq<Placement>, sizeBytes: int) {
      && |locations| == |placements|
      && forall i {:trigger locations[i]} :: 0 <= i < |locations| ==>
           locations[i] == Location(placements[i].id, placements[i].addresses,
                                    Max(0, Min(blockSize, sizeBytes - Start(i, blockSize))))
    }

    method LocateBlocks(placements: seq<Placement>, sizeBytes: nat) returns (locations: seq<Location>)
      ensures Locates(locations, placements, sizeBytes)
    {
      var remaining: int := sizeBytes;
      locations := [];
      for i := 0 to |placements|
        invariant |locations| == i && remaining == Max(0, sizeBytes - Start(i, blockSize))
        invariant forall j {:trigger locations[j]} :: 0 <= j < i ==>
          locations[j] == Location(placements[j].id, placements[j].addresses,
                                   Max(0, Min(blockSize, sizeBytes - Start(j, blockSize))))
      {
        var thisBlockSize := Min(blockSize, remaining);
        locations := locations + [Location(placements[i].id, placements[i].addresses, thisBlockSize)];
        remaining := remaining - thisBlockSize;
      }
    }

    /** The handler of AbortUpload, which reads the blocks before it submits; `others` is what
        the log applies in between. What it deletes is safe exactly when commands executed from
        the reading on took all the blocks it read. That is so if, at the reading, the key was
        not known for a success and no other request uses it; if it was, and nothing else is
        applied, it is not. */
    method AbortUpload(principal: Principal, opId: string, path: string, caller: Option<Caller>, others: seq<Command>,
          fate: Fate)
      returns (r: Option<Result<Value>>, deletions: seq<Deletion>)
      requires Valid()
      modifies this`log, this`inTransit, replicated, replicated.tree
      ensures Valid() && old(log) + others <= log
      ensures r.Some? <==> opId != "" && fate.Confirmed?
      ensures log == Submitted(old(log) + others, principal, opId, AbortUploadOp(path, caller), fate)
      ensures inTransit == Delayed(old(inTransit), principal, opId, AbortUploadOp(path, caller), fate)
      ensures r.Some? ==> r.value == Answer(LOG, log, |old(log)| + |others|)
      ensures Deletes(deletions, if r.Some? && r.value.Ok? then old(PendingBlocks(replicated.tree.root, path)) else [])
      ensures FreshRun({}, Ops(Executed(LOG, log))) && r.Some? && r.value.Ok? ==>
                AbortPromises(old(replicated.View()), others,
                              EntryFor(principal, opId, AbortUploadOp(path, caller)).key,
                              AbortUploadOp(path, caller), replicated.View().tree)
      ensures NoneReferenced(replicated.View().tree, old(PendingBlocks(replicated.tree.root, path)))
              ==> SafeDeletions(deletions)
      ensures var key := EntryFor(principal, opId, AbortUploadOp(path, caller)).key;
              FreshRun({}, Ops(Executed(LOG, log))) && SameAbort(others, key, path)
                  && old(NotDone(replicated.View(), key))
              ==> SafeDeletions(deletions)
    {
      var blocks := PendingBlocks(replicated.tree.root, path);
      var abort := AbortUploadOp(path, caller);
      ghost var key := EntryFor(principal, opId, abort).key;
      ghost var reading := replicated.View();
      deletions := [];
      AppendOthers(others);
      r := Commit(principal, opId, abort, fate);
      if r.Some? && r.value.Ok? {
        AbortAfterLog(old(log), others, key, abort, reading, log, replicated.View());
        deletions := DeleteBlocks(blocks);
        DeletionsOf(deletions, blocks);
      }
    }
  }

  lemma {:induction false} OneMore(r: Table, es: seq<Command>, i: nat)
    requires i < |es|
    ensures es[..i + 1] == es[..i] + [es[i]]
    ensures Continue(LOG, r, es[..i + 1]) == Apply(LOG, Continue(LOG, r, es[..i]), es[i]).0
  {
    assert es[..i + 1] == es[..i] + [es[i]];
    ContinueSnoc(LOG, r, es[..i], es[i]);
  }

  /** What a successful AbortUpload means for the blocks that its handler read in `r`: none of
      them is in the metadata at the `end` exactly when commands executed since took them all.
      If the key is that of no other request, they are gone unless it was done at the reading;
      if it was, and nothing else is applied, they are not. */
  ghost predicate AbortPromises(r: Table, others: seq<Command>, key: string, abort: Op, end: State)
    requires abort.AbortUploadOp?
  {
    var blocks := PendingBlocks(r.tree.root, abort.path);
    && (NoneReferenced(end, blocks)
        <==> AllTaken(r.tree, Ops(RunsFrom(LOG, r, others + [Entry(key, Some(abort))])), abort.path))
    && (SameAbort(others, key, abort.path) && NotDone(r, key) ==> NoneReferenced(end, blocks))
    && (others == [] && !NotDone(r, key) && blocks != [] ==> !NoneReferenced(end, blocks))
  }

  lemma {:induction false} AbortFromReading(r: Table, used: set<string>, others: seq<Command>, key: string, abort: Op)
    requires abort.AbortUploadOp? && Sound(r.tree, used)
    requires FreshFrom(r, used, others + [Entry(key, Some(abort))])
    requires Apply(LOG, Continue(LOG, r, others), Entry(key, Some(abort))).1.Ok?
    ensures AbortPromises(r, others, key, abort, Continue(LOG, r, others + [Entry(key, Some(abort))]).tree)
  {
    AbortIsSafeIffTaken(r, used, key, abort, others);
    if NotDone(r, key) {
      if SameAbort(others, key, abort.path) {
        NotDoneIsSafe(r, used, key, abort, others);
      }
    } else if others == [] && PendingBlocks(r.tree.root, abort.path) != [] {
      DoneIsUnsafe(r, used, key, abort);
    }
  }

  /** The same after a log. */
  lemma {:induction false} AbortAfterLog(before: seq<Command>, others: seq<Command>, key: string, abort: Op, r: Table,
        log: seq<Command>, end: Table)
    requires abort.AbortUploadOp? && r == After(LOG, before) && log == before + others + [Entry(key, Some(abort))]
    requires var last := Apply(LOG, Continue(LOG, r, others), Entry(key, Some(abort)));
             end == last.0 && last.1.Ok?
    ensures FreshRun({}, Ops(Executed(LOG, log))) ==> AbortPromises(r, others, key, abort, end.tree)
  {
    var more := others + [Entry(key, Some(abort))];
    assert log == before + more;
    if FreshRun({}, Ops(Executed(LOG, log))) {
      var used := LogGoesOn(before, more);
      ContinueSnoc(LOG, r, others, Entry(key, Some(abort)));
      AbortFromReading(r, used, others, key, abort);
    }
  }

  lemma {:induction false} LogGoesOn(before: seq<Command>, more: seq<Command>) returns (used: set<string>)
    requires FreshRun({}, Ops(Executed(LOG, before + more)))
    ensures Sound(After(LOG, before).tree, used) && FreshFrom(After(LOG, before), used, more)
  {
    var ran, later := Executed(LOG, before), RunsFrom(LOG, After(LOG, before), more);
    ContinueAfter(LOG, before, more);
    OpsSplit(ran + later, |ran|);
    assert (ran + later)[..|ran|] == ran && (ran + later)[|ran|..] == later;
    used := LearnAll({}, Ops(ran));
    RunConcat(INITIAL, {}, Ops(ran), Ops(later));
    TableIsTheRecentPast(LOG, before);
    TreeAfterIsRun(ran);
    InitialIsSound();
    SoundRun(INITIAL, {}, Ops(ran));
  }
}
