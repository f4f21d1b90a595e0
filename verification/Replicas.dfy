/** Lists of replicas: a repair keeps every live replica, adds one and never exceeds the
    replication factor; every list stays free of duplicates; and what the blocks lack is
    accounted for, command by command. */
module Replicas {
  import opened Common
  import opened Paths
  import opened Tree
  import opened WritePlan
  import opened Mutations
  import opened Effects
  import opened Locking
  import opened Conservation
  import opened Walks
  import opened ControlServicer

  /** The addresses that are alive, in their order. */
  function Live(addresses: seq<string>, alive: set<string>): (r: seq<string>)
    ensures forall a :: a in r <==> a in addresses && a in alive
    ensures |r| <= |addresses|
  {
    if addresses == [] then []
    else (if addresses[0] in alive then [addresses[0]] else []) + Live(addresses[1..], alive)
  }

  /** The live ones keep their order. */
  lemma {:induction false} LiveOfConcat(xs: seq<string>, ys: seq<string>, alive: set<string>)
    ensures Live(xs + ys, alive) == Live(xs, alive) + Live(ys, alive)
  {
    if xs == [] {
      assert xs + ys == ys;
    } else {
      assert (xs + ys)[1..] == xs[1..] + ys;
      LiveOfConcat(xs[1..], ys, alive);
    }
  }

  lemma {:induction false} LiveIsDistinct(addresses: seq<string>, alive: set<string>)
    requires Distinct(addresses)
    ensures Distinct(Live(addresses, alive))
  {
    if addresses != [] {
      LiveIsDistinct(addresses[1..], alive);
    }
  }

  lemma {:induction false} LiveConcat(xs: seq<string>, ys: seq<string>, alive: set<string>)
    ensures Live(xs + ys, alive) == Live(xs, alive) + Live(ys, alive)
  {
    if xs == [] {
      assert xs + ys == ys;
    } else {
      assert (xs + ys)[1..] == xs[1..] + ys;
      LiveConcat(xs[1..], ys, alive);
    }
  }

  lemma {:induction false} LiveOfLive(xs: seq<string>, alive: set<string>)
    ensures Live(Live(xs, alive), alive) == Live(xs, alive)
  {
    if xs != [] {
      LiveConcat(if xs[0] in alive then [xs[0]] else [], Live(xs[1..], alive), alive);
      LiveOfLive(xs[1..], alive);
      assert [xs[0]][1..] == [];
    }
  }

  /** A replica list that a repair may put in the place of `expected`. */
  ghost predicate GoodRepair(expected: seq<string>, replacement: seq<string>, target: string, alive: set<string>,
        factor: nat) {
    && replacement == Live(expected, alive) + [target]
    && target in alive && target !in expected
    && |Live(expected, alive)| < factor
  }

  /** What that means for the block. */
  lemma {:induction false} RepairKeepsAndAdds(expected: seq<string>, replacement: seq<string>, target: string,
        alive: set<string>, factor: nat)
    requires GoodRepair(expected, replacement, target, alive, factor) && Distinct(expected)
    ensures Distinct(replacement) && |replacement| <= factor
    ensures forall a :: a in expected && a in alive ==> a in replacement
    ensures |Live(replacement, alive)| == |Live(expected, alive)| + 1
  {
    LiveIsDistinct(expected, alive);
    LiveConcat(Live(expected, alive), [target], alive);
    LiveOfLive(expected, alive);
    assert [target][1..] == [];
  }

  // ----- Replica lists over runs -----

  ghost predicate GoodList(addresses: seq<string>, factor: nat) {
    Distinct(addresses) && |addresses| <= factor
  }

  /** Addresses as one call of the placement gives them. */
  ghost predicate Placed(addresses: seq<string>, factor: nat) {
    exists alive: seq<string>, start: nat ::
      alive != [] && Distinct(alive) && PickedFrom(alive, start, Min(factor, |alive|), addresses)
  }

  lemma {:induction false} PlacedIsGood(addresses: seq<string>, factor: nat)
    requires Placed(addresses, factor)
    ensures GoodList(addresses, factor)
  {
    var alive: seq<string>, start: nat :|
      alive != [] && Distinct(alive) && PickedFrom(alive, start, Min(factor, |alive|), addresses);
    PickedAreDistinct(alive, start, Min(factor, |alive|), addresses);
  }

  /** Blocks are placed by the round-robin, and replica lists replaced by good repairs. */
  ghost predicate WellPlaced(op: Op, factor: nat) {
    match op
    case BeginUploadOp(_, placements, _, _, _, _) =>
      forall i :: 0 <= i < |placements| ==> Placed(placements[i].addresses, factor)
    case BeginWriteOp(_, _, _, _, _, _, proposals, _, _, _, _) =>
      forall i :: 0 <= i < |proposals| ==> Placed(proposals[i].addresses, factor)
    case UpdateReplicasOp(_, _, expected, replacement) =>
      exists target, alive :: GoodRepair(expected, replacement, target, alive, factor)
    case _ => true
  }

  ghost predicate GoodBlocks(blocks: seq<BlockRecord>, factor: nat) {
    forall i :: 0 <= i < |blocks| ==> GoodList(blocks[i].addresses, factor)
  }

  ghost predicate GoodSlots(slots: seq<WriteSlot>, factor: nat) {
    forall k :: 0 <= k < |slots| ==> GoodList(slots[k].addresses, factor)
  }

  /** No list of replicas, of a file or of a reservation, repeats a node or exceeds the factor. */
  ghost predicate ReplicasOk(s: State, factor: nat) {
    && (forall path :: FileAt(s.root, path).Some? ==> GoodBlocks(FileAt(s.root, path).value.blocks, factor))
    && forall w :: w in s.writes ==> GoodSlots(s.writes[w].slots, factor)
  }

  lemma {:induction false} BegunSlotAddresses(s: State, op: Op)
    requires op.BeginWriteOp? && Succeeds(s, op)
    ensures op.writeId in Step(s, op).0.writes && |Step(s, op).0.writes[op.writeId].slots| == |op.proposals|
    ensures forall k :: 0 <= k < |op.proposals| ==>
              Step(s, op).0.writes[op.writeId].slots[k].addresses == op.proposals[k].addresses
  {
  }

  lemma {:induction false} PublishedIsGood(blocks: seq<BlockRecord>, slots: seq<WriteSlot>, confirmed: seq<Confirmed>,
        factor: nat)
    requires Consecutive(slots) && |slots| == |confirmed| && GoodBlocks(blocks, factor) && GoodSlots(slots, factor)
    ensures GoodBlocks(Publish(blocks, slots, confirmed).0, factor)
  {
    PublishIsOverlay(blocks, slots, confirmed);
    var base, news := PublishStart(blocks, slots), NewBlocksOf(slots, confirmed);
    forall i | 0 <= i < |Overlay(blocks, base, news)|
      ensures GoodList(Overlay(blocks, base, news)[i].addresses, factor)
    {
      if base <= i < base + |news| {
        assert news[i - base] == PublishedBlock(slots[i - base], confirmed[i - base]);
      }
    }
  }

  lemma {:induction false} RepairedIsGood(s: State, op: Op, factor: nat)
    requires op.UpdateReplicasOp? && Succeeds(s, op) && WellPlaced(op, factor) && ReplicasOk(s, factor)
    ensures Distinct(op.expected) && GoodList(op.replacement, factor)
  {
    var place := UpdatedBlock(s, op);
    assert GoodList(CommittedFile(s.root, place.path).value.blocks[place.i].addresses, factor);
    var target, alive :| GoodRepair(op.expected, op.replacement, target, alive, factor);
    RepairKeepsAndAdds(op.expected, op.replacement, target, alive, factor);
  }

  lemma {:induction false} FileReplicasStep(s: State, op: Op, factor: nat)
    requires ReservationsOk(s) && ReplicasOk(s, factor) && WellPlaced(op, factor)
    requires Succeeds(s, op) && Target(op).Ok? && FileAfter(s, op).Some?
    ensures GoodBlocks(FileAfter(s, op).value.blocks, factor)
  {
    if op.CommitWriteOp? {
      CommitHoldsTheLock(s, op);
      PublishedIsGood(CommittedFile(s.root, Target(op).value).value.blocks, s.writes[op.writeId].slots, op.confirmed,
                      factor);
    } else if op.UpdateReplicasOp? {
      RepairedIsGood(s, op, factor);
    } else if op.BeginUploadOp? {
      forall i | 0 <= i < |op.placements| ensures GoodList(op.placements[i].addresses, factor) {
        PlacedIsGood(op.placements[i].addresses, factor);
      }
    } else {
      OthersKeepReplicas(s, op);
    }
  }

  lemma {:induction false} OthersKeepReplicas(s: State, op: Op)
    requires Succeeds(s, op) && Target(op).Ok? && FileAfter(s, op).Some?
    requires !op.CommitWriteOp? && !op.UpdateReplicasOp? && !op.BeginUploadOp?
    ensures FileAt(s.root, Target(op).value).Some?
    ensures var blocks, after := FileAt(s.root, Target(op).value).value.blocks, FileAfter(s, op).value.blocks;
            |after| == |blocks| && forall i :: 0 <= i < |blocks| ==> after[i].addresses == blocks[i].addresses
  {
  }

  lemma {:induction false} ReplicasOkStep(s: State, op: Op, factor: nat)
    requires ReservationsOk(s) && ReplicasOk(s, factor) && WellPlaced(op, factor)
    ensures ReplicasOk(Step(s, op).0, factor)
  {
    var s' := Step(s, op).0;
    forall path | FileAt(s'.root, path).Some? ensures GoodBlocks(FileAt(s'.root, path).value.blocks, factor) {
      StepFiles(s, op, path);
      if Succeeds(s, op) && Target(op) == Ok(path) {
        FileReplicasStep(s, op, factor);
      }
    }
    forall w | w in s'.writes ensures GoodSlots(s'.writes[w].slots, factor) {
      StepWrites(s, op, w);
      if !(w in s.writes && s'.writes[w] == s.writes[w]) {
        BegunSlotAddresses(s, op);
        forall k | 0 <= k < |op.proposals| ensures GoodList(op.proposals[k].addresses, factor) {
          PlacedIsGood(op.proposals[k].addresses, factor);
        }
      }
    }
  }

  /** Over any run whose blocks are placed and repaired as the program does it, every list of
      replicas stays free of duplicates and within the factor. */
  lemma {:induction false} ReplicasOkRun(s: State, ops: seq<Op>, factor: nat)
    requires ReservationsOk(s) && ReplicasOk(s, factor)
    requires forall i :: 0 <= i < |ops| ==> WellPlaced(ops[i], factor)
    ensures ReplicasOk(Run(s, ops), factor)
    decreases |ops|
  {
    if ops != [] {
      ReplicasOkStep(s, ops[0], factor);
      ReservationsOkStep(s, ops[0]);
      ReplicasOkRun(Step(s, ops[0]).0, ops[1..], factor);
    }
  }

  lemma {:induction false} ReachableReplicas(ops: seq<Op>, factor: nat)
    requires forall i :: 0 <= i < |ops| ==> WellPlaced(ops[i], factor)
    ensures ReplicasOk(Run(INITIAL, ops), factor)
  {
    forall path ensures FileAt(INITIAL.root, path) == None {
      assert Lookup(INITIAL.root, path).Some? ==> path == [];
    }
    ReplicasOkRun(INITIAL, ops, factor);
  }

  // ----- Sums over places -----

  function SumOver(places: seq<Place>, weight: Place -> int): int {
    if places == [] then 0 else weight(places[0]) + SumOver(places[1..], weight)
  }

  lemma {:induction false} SumOverSame(places: seq<Place>, v: Place -> int, w: Place -> int)
    requires forall place :: place in places ==> v(place) == w(place)
    ensures SumOver(places, v) == SumOver(places, w)
  {
    if places != [] {
      SumOverSame(places[1..], v, w);
    }
  }

  function Without(weight: Place -> int, place: Place): Place -> int {
    (other: Place) => if other == place then 0 else weight(other)
  }

  lemma {:induction false} TakeOut(places: seq<Place>, weight: Place -> int, place: Place)
    requires Distinct(places)
    ensures SumOver(places, weight)
              == SumOver(places, Without(weight, place)) + if place in places then weight(place) else 0
  {
    if places != [] {
      TakeOut(places[1..], weight, place);
      assert place in places <==> place == places[0] || place in places[1..];
      assert place == places[0] ==> place !in places[1..];
    }
  }

  function WithoutFile(weight: Place -> int, path: Path): Place -> int {
    (other: Place) => if other.path == path then 0 else weight(other)
  }

  function FileSum(weight: Place -> int, path: Path, count: nat): int {
    if count == 0 then 0 else FileSum(weight, path, count - 1) + weight(Place(path, count - 1))
  }

  lemma {:induction false} FileSumSame(v: Place -> int, w: Place -> int, path: Path, count: nat)
    requires forall i: nat :: i < count ==> v(Place(path, i)) == w(Place(path, i))
    ensures FileSum(v, path, count) == FileSum(w, path, count)
  {
    if count > 0 {
      FileSumSame(v, w, path, count - 1);
    }
  }

  /** The places of one file, all listed, make up their part of the sum. */
  lemma {:induction false} SumOfOneFile(places: seq<Place>, weight: Place -> int, path: Path, count: nat)
    requires Distinct(places) && forall i: nat :: i < count ==> Place(path, i) in places
    requires forall i: nat :: i >= count ==> weight(Place(path, i)) == 0
    ensures SumOver(places, weight) == SumOver(places, WithoutFile(weight, path)) + FileSum(weight, path, count)
    decreases count
  {
    if count == 0 {
      SumOverSame(places, weight, WithoutFile(weight, path));
    } else {
      var last := Place(path, count - 1);
      var rest := Without(weight, last);
      TakeOut(places, weight, last);
      assert last in places;
      SumOfOneFile(places, rest, path, count - 1);
      SumOverSame(places, WithoutFile(rest, path), WithoutFile(weight, path));
      FileSumSame(rest, weight, path, count - 1);
    }
  }

  // ----- The deficit -----

  /** How many live replicas a block lacks. */
  function Deficit(addresses: seq<string>, alive: set<string>, factor: nat): nat {
    Max(0, factor - |Live(addresses, alive)|)
  }

  function BlocksDeficit(blocks: seq<BlockRecord>, alive: set<string>, factor: nat): nat {
    if blocks == [] then 0
    else BlocksDeficit(blocks[..|blocks| - 1], alive, factor) + Deficit(blocks[|blocks| - 1].addresses, alive, factor)
  }

  lemma {:induction false} BlocksDeficitConcat(xs: seq<BlockRecord>, ys: seq<BlockRecord>, alive: set<string>,
        factor: nat)
    ensures BlocksDeficit(xs + ys, alive, factor) == BlocksDeficit(xs, alive, factor) + BlocksDeficit(ys, alive, factor)
  {
    if ys == [] {
      assert xs + ys == xs;
    } else {
      var init := ys[..|ys| - 1];
      assert (xs + ys)[..|xs + ys| - 1] == xs + init;
      BlocksDeficitConcat(xs, init, alive, factor);
    }
  }

  /** The blocks of the committed file at a path, if there is one. */
  function BlocksAt(root: Directory, path: Path): seq<BlockRecord> {
    var found := CommittedFile(root, path);
    if found.Ok? then found.value.blocks else []
  }

  function DeficitAt(root: Directory, place: Place, alive: set<string>, factor: nat): nat {
    var blocks := BlocksAt(root, place.path);
    if place.i < |blocks| then Deficit(blocks[place.i].addresses, alive, factor) else 0
  }

  function DeficitsOf(root: Directory, alive: set<string>, factor: nat): Place -> int {
    (place: Place) => DeficitAt(root, place, alive, factor)
  }

  /** The deficit summed over places, each listed once. */
  function TotalDeficit(root: Directory, places: seq<Place>, alive: set<string>, factor: nat): int {
    SumOver(places, DeficitsOf(root, alive, factor))
  }

  lemma {:induction false} FileSumIsBlocksDeficit(root: Directory, path: Path, alive: set<string>, factor: nat,
        count: nat)
    requires count <= |BlocksAt(root, path)|
    ensures FileSum(DeficitsOf(root, alive, factor), path, count)
              == BlocksDeficit(BlocksAt(root, path)[..count], alive, factor)
  {
    if count > 0 {
      FileSumIsBlocksDeficit(root, path, alive, factor, count - 1);
      var blocks := BlocksAt(root, path)[..count];
      assert blocks[..count - 1] == BlocksAt(root, path)[..count - 1];
    }
  }

  /** The places listed, each once, have all the blocks of the committed files. */
  ghost predicate ListsAll(root: Directory, places: seq<Place>) {
    Distinct(places) && forall place :: CommittedBlock(root, place) ==> place in places
  }

  lemma {:induction false} DeficitOfOneFile(root: Directory, places: seq<Place>, path: Path, alive: set<string>,
        factor: nat)
    requires ListsAll(root, places)
    ensures TotalDeficit(root, places, alive, factor)
            == SumOver(places, WithoutFile(DeficitsOf(root, alive, factor), path))
                + BlocksDeficit(BlocksAt(root, path), alive, factor)
  {
    var count := |BlocksAt(root, path)|;
    forall i: nat | i < count ensures Place(path, i) in places {
      assert CommittedBlock(root, Place(path, i));
    }
    SumOfOneFile(places, DeficitsOf(root, alive, factor), path, count);
    FileSumIsBlocksDeficit(root, path, alive, factor, count);
    assert BlocksAt(root, path)[..count] == BlocksAt(root, path);
  }

  /** When one file changes, the sum changes by what its blocks lack. */
  lemma {:induction false} DeficitWhenOneFileChanges(root: Directory, root': Directory, path: Path, places: seq<Place>,
        alive: set<string>, factor: nat)
    requires ListsAll(root, places) && ListsAll(root', places)
    requires forall other :: other != path ==> BlocksAt(root', other) == BlocksAt(root, other)
    ensures TotalDeficit(root', places, alive, factor) - BlocksDeficit(BlocksAt(root', path), alive, factor)
            == TotalDeficit(root, places, alive, factor) - BlocksDeficit(BlocksAt(root, path), alive, factor)
  {
    DeficitOfOneFile(root, places, path, alive, factor);
    DeficitOfOneFile(root', places, path, alive, factor);
    SumOverSame(places, WithoutFile(DeficitsOf(root, alive, factor), path),
                WithoutFile(DeficitsOf(root', alive, factor), path));
  }

  lemma {:induction false} OtherBlocksStay(s: State, op: Op, path: Path)
    requires !(Succeeds(s, op) && Target(op) == Ok(path))
    ensures BlocksAt(Step(s, op).0.root, path) == BlocksAt(s.root, path)
  {
    StepFiles(s, op, path);
  }

  /** A removal takes away what the blocks it returns lacked. */
  lemma {:induction false} RemovalDeficit(s: State, op: Op, places: seq<Place>, alive: set<string>, factor: nat)
    requires op.RemoveFileOp? && Succeeds(s, op) && ListsAll(s.root, places) && ListsAll(Step(s, op).0.root, places)
    ensures Step(s, op).1.value.Removed?
    ensures TotalDeficit(Step(s, op).0.root, places, alive, factor)
            == TotalDeficit(s.root, places, alive, factor) - BlocksDeficit(Step(s, op).1.value.blocks, alive, factor)
  {
    RemovalFindsFile(s, op);
    StepFiles(s, op, Target(op).value);
    OnlyTheTargetChanges(s, op);
    DeficitWhenOneFileChanges(s.root, Step(s, op).0.root, Target(op).value, places, alive, factor);
  }

  lemma {:induction false} OnlyTheTargetChanges(s: State, op: Op)
    requires Target(op).Ok?
    ensures forall other :: other != Target(op).value ==> BlocksAt(Step(s, op).0.root, other) == BlocksAt(s.root, other)
  {
    forall other | other != Target(op).value ensures BlocksAt(Step(s, op).0.root, other) == BlocksAt(s.root, other) {
      OtherBlocksStay(s, op, other);
    }
  }

  /** Completing an upload adds what its blocks lack: replicas lost since they were placed. */
  lemma {:induction false} CompletionDeficit(s: State, op: Op, places: seq<Place>, alive: set<string>, factor: nat)
    requires op.CompleteUploadOp? && Succeeds(s, op) && ListsAll(s.root, places) && ListsAll(Step(s, op).0.root, places)
    ensures Target(op).Ok? && FileAt(s.root, Target(op).value).Some?
    ensures TotalDeficit(Step(s, op).0.root, places, alive, factor)
            == TotalDeficit(s.root, places, alive, factor)
               + BlocksDeficit(FileAt(s.root, Target(op).value).value.blocks, alive, factor)
  {
    CompletedFile(s, op);
    StepFiles(s, op, Target(op).value);
    OnlyTheTargetChanges(s, op);
    DeficitWhenOneFileChanges(s.root, Step(s, op).0.root, Target(op).value, places, alive, factor);
  }

  lemma {:induction false} CompletedFile(s: State, op: Op)
    requires op.CompleteUploadOp? && Succeeds(s, op)
    ensures Target(op).Ok? && FileAt(s.root, Target(op).value).Some?
    ensures !FileAt(s.root, Target(op).value).value.committed
  {
  }

  lemma {:induction false} OverlayDeficit(blocks: seq<BlockRecord>, base: nat, news: seq<BlockRecord>,
        alive: set<string>, factor: nat)
    requires base <= |blocks|
    ensures BlocksDeficit(Overlay(blocks, base, news), alive, factor)
            == BlocksDeficit(blocks, alive, factor) + BlocksDeficit(news, alive, factor)
               - BlocksDeficit(blocks[base..Min(base + |news|, |blocks|)], alive, factor)
  {
    var end := Min(base + |news|, |blocks|);
    assert blocks == blocks[..base] + (blocks[base..end] + blocks[end..]);
    assert Overlay(blocks, base, news) == blocks[..base] + (news + blocks[end..]);
    BlocksDeficitConcat(blocks[..base], blocks[base..end] + blocks[end..], alive, factor);
    BlocksDeficitConcat(blocks[base..end], blocks[end..], alive, factor);
    BlocksDeficitConcat(blocks[..base], news + blocks[end..], alive, factor);
    BlocksDeficitConcat(news, blocks[end..], alive, factor);
  }

  /** What a commit does to the block list, in the terms of the reservation. */
  lemma {:induction false} CommittedBlocks(s: State, op: Op)
    requires ReservationsOk(s) && op.CommitWriteOp? && Succeeds(s, op)
    ensures Target(op).Ok? && op.writeId in s.writes && |s.writes[op.writeId].slots| == |op.confirmed|
    ensures Consecutive(s.writes[op.writeId].slots) && Step(s, op).1.value.Published?
    ensures var path, slots := Target(op).value, s.writes[op.writeId].slots;
            var blocks := BlocksAt(s.root, path);
            var base := PublishStart(blocks, slots);
            && BlocksAt(Step(s, op).0.root, path) == Overlay(blocks, base, NewBlocksOf(slots, op.confirmed))
            && Step(s, op).1.value.replaced == blocks[base..Min(base + |slots|, |blocks|)]
  {
    CommitHoldsTheLock(s, op);
    CommitOutcome(s, op);
    StepFiles(s, op, Target(op).value);
    PublishIsOverlay(BlocksAt(s.root, Target(op).value), s.writes[op.writeId].slots, op.confirmed);
  }

  /** A commit adds what its new blocks lack and takes away what the replaced ones lacked. */
  lemma {:induction false} CommitDeficit(s: State, op: Op, places: seq<Place>, alive: set<string>, factor: nat)
    requires ReservationsOk(s) && op.CommitWriteOp? && Succeeds(s, op)
    requires ListsAll(s.root, places) && ListsAll(Step(s, op).0.root, places)
    ensures op.writeId in s.writes && |s.writes[op.writeId].slots| == |op.confirmed| && Step(s, op).1.value.Published?
    ensures TotalDeficit(Step(s, op).0.root, places, alive, factor)
            == TotalDeficit(s.root, places, alive, factor)
               + BlocksDeficit(NewBlocksOf(s.writes[op.writeId].slots, op.confirmed), alive, factor)
               - BlocksDeficit(Step(s, op).1.value.replaced, alive, factor)
  {
    CommittedBlocks(s, op);
    OnlyTheTargetChanges(s, op);
    var slots := s.writes[op.writeId].slots;
    OverlaidDeficit(s.root, Step(s, op).0.root, Target(op).value,
                    PublishStart(BlocksAt(s.root, Target(op).value), slots),
                    NewBlocksOf(slots, op.confirmed), Step(s, op).1.value.replaced, places, alive, factor);
  }

  lemma {:induction false} OverlaidDeficit(root: Directory, root': Directory, path: Path, base: nat,
        news: seq<BlockRecord>, replaced: seq<BlockRecord>, places: seq<Place>, alive: set<string>, factor: nat)
    requires ListsAll(root, places) && ListsAll(root', places)
    requires forall other :: other != path ==> BlocksAt(root', other) == BlocksAt(root, other)
    requires base <= |BlocksAt(root, path)| && BlocksAt(root', path) == Overlay(BlocksAt(root, path), base, news)
    requires replaced == BlocksAt(root, path)[base..Min(base + |news|, |BlocksAt(root, path)|)]
    ensures TotalDeficit(root', places, alive, factor)
            == TotalDeficit(root, places, alive, factor)
                + BlocksDeficit(news, alive, factor) - BlocksDeficit(replaced, alive, factor)
  {
    OverlayDeficit(BlocksAt(root, path), base, news, alive, factor);
    DeficitWhenOneFileChanges(root, root', path, places, alive, factor);
  }

  /** Where a successful replica update happens, and what is there before and after. */
  lemma {:induction false} UpdatedBlock(s: State, op: Op) returns (place: Place)
    requires op.UpdateReplicasOp? && Succeeds(s, op)
    ensures CommittedBlock(s.root, place) && CommittedBlock(Step(s, op).0.root, place)
    ensures var block := CommittedFile(s.root, place.path).value.blocks[place.i];
            && Target(op) == Ok(place.path) && block.id == op.blockId && block.addresses == op.expected
            && CommittedFile(Step(s, op).0.root, place.path).value.blocks[place.i]
                == block.(addresses := op.replacement)
    ensures forall other, alive, factor :: other != place ==>
              DeficitAt(Step(s, op).0.root, other, alive, factor) == DeficitAt(s.root, other, alive, factor)
  {
    var path := Target(op).value;
    var file := FileAt(s.root, path).value;
    place := Place(path, IndexOfBlock(file.blocks, op.blockId));
    StepFiles(s, op, path);
    forall other, alive, factor | other != place
      ensures DeficitAt(Step(s, op).0.root, other, alive, factor) == DeficitAt(s.root, other, alive, factor)
    {
      StepFiles(s, op, other.path);
    }
  }

  /** With a fixed set of live nodes, each committed repair takes exactly one from the summed
      deficit. */
  lemma {:induction false} RepairLowersTheDeficit(s: State, op: Op, target: string, alive: set<string>, factor: nat,
        places: seq<Place>)
    requires op.UpdateReplicasOp? && Succeeds(s, op) && ReplicasOk(s, factor) && ListsAll(s.root, places)
    requires GoodRepair(op.expected, op.replacement, target, alive, factor)
    ensures TotalDeficit(Step(s, op).0.root, places, alive, factor) == TotalDeficit(s.root, places, alive, factor) - 1
  {
    var place := UpdatedBlock(s, op);
    var before, after := DeficitsOf(s.root, alive, factor), DeficitsOf(Step(s, op).0.root, alive, factor);
    assert WellPlaced(op, factor);
    RepairedIsGood(s, op, factor);
    RepairKeepsAndAdds(op.expected, op.replacement, target, alive, factor);
    TakeOut(places, before, place);
    TakeOut(places, after, place);
    SumOverSame(places, Without(before, place), Without(after, place));
  }

  /** Every other command leaves the sum as it is. */
  lemma {:induction false} OthersKeepTheDeficit(s: State, op: Op, alive: set<string>, factor: nat, places: seq<Place>)
    requires Succeeds(s, op) ==>
      !op.UpdateReplicasOp? && !op.CommitWriteOp? && !op.CompleteUploadOp? && !op.RemoveFileOp?
    ensures TotalDeficit(Step(s, op).0.root, places, alive, factor) == TotalDeficit(s.root, places, alive, factor)
  {
    forall place | place in places
      ensures DeficitAt(Step(s, op).0.root, place, alive, factor) == DeficitAt(s.root, place, alive, factor)
    {
      OthersKeepBlocks(s, op, place.path);
    }
    SumOverSame(places, DeficitsOf(Step(s, op).0.root, alive, factor), DeficitsOf(s.root, alive, factor));
  }

  lemma {:induction false} OthersKeepBlocks(s: State, op: Op, path: Path)
    requires Succeeds(s, op) ==>
      !op.UpdateReplicasOp? && !op.CommitWriteOp? && !op.CompleteUploadOp? && !op.RemoveFileOp?
    ensures BlocksAt(Step(s, op).0.root, path) == BlocksAt(s.root, path)
  {
    StepFiles(s, op, path);
    if Succeeds(s, op) && Target(op) == Ok(path) {
      if op.BeginUploadOp? {
        UploadReplacesOnlyExpired(s, op);
      } else if op.AbortUploadOp? {
        RemovalFindsFile(s, op);
      } else if op.ConfirmBlockOp? {
        UploadCommandsSpareCommitted(s, op);
      }
    }
  }

  /** So the sum never rises but by a completion or a commit. */
  lemma {:induction false} DeficitRisesOnlyByPublishing(s: State, op: Op, alive: set<string>, factor: nat,
        places: seq<Place>)
    requires Succeeds(s, op) ==> !op.CommitWriteOp? && !op.CompleteUploadOp?
    requires op.UpdateReplicasOp? ==> exists target :: GoodRepair(op.expected, op.replacement, target, alive, factor)
    requires ReplicasOk(s, factor) && ListsAll(s.root, places) && ListsAll(Step(s, op).0.root, places)
    ensures TotalDeficit(Step(s, op).0.root, places, alive, factor) <= TotalDeficit(s.root, places, alive, factor)
  {
    if Succeeds(s, op) && op.UpdateReplicasOp? {
      var target :| GoodRepair(op.expected, op.replacement, target, alive, factor);
      RepairLowersTheDeficit(s, op, target, alive, factor, places);
    } else if Succeeds(s, op) && op.RemoveFileOp? {
      RemovalDeficit(s, op, places, alive, factor);
    } else {
      OthersKeepTheDeficit(s, op, alive, factor, places);
    }
  }
}
