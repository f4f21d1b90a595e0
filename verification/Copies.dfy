/** Which copies the metadata names, and what can make it name another. */
module Copies {
  import opened Common
  import opened Paths
  import opened Tree
  import opened Mutations
  import opened Effects
  import opened History
  import opened Locking
  import opened Conservation
  import opened Walks

  /** A copy: a block on a node. */
  datatype Copy = Copy(id: string, address: string)

  ghost predicate InSlot(r: Reservation, id: string, address: string) {
    exists k :: 0 <= k < |r.slots| && r.slots[k].blockId == id && address in r.slots[k].addresses
  }

  ghost predicate NamedIn(s: State, path: Path, id: string, address: string) {
    exists i :: NamedAt(s.root, path, i, id, address)
  }

  ghost predicate NamedSomewhere(s: State, id: string, address: string) {
    exists path, i :: NamedAt(s.root, path, i, id, address)
  }

  /** The command introduces the id, publishes a reservation that names the copy, or records
      the copy. */
  ghost predicate PutsInPlace(s: State, op: Op, id: string, address: string) {
    || (op.BeginUploadOp? && id in NewIds(op))
    || (op.CommitWriteOp? && op.writeId in s.writes && s.writes[op.writeId].expires > op.now
        && InSlot(s.writes[op.writeId], id, address))
    || (op.UpdateReplicasOp? && op.blockId == id && address in op.replacement && address !in op.expected)
  }

  /** A file names a copy after a command only if it did before, or the command, which is
      about that file and succeeds, puts it there. */
  lemma {:induction false} NamedAfterStep(s: State, op: Op, path: Path, i: nat, id: string, address: string)
    requires ReservationsOk(s) && NamedAt(Step(s, op).0.root, path, i, id, address)
    ensures NamedIn(s, path, id, address)
            || (Succeeds(s, op) && Target(op) == Ok(path) && PutsInPlace(s, op, id, address))
  {
    StepFiles(s, op, path);
    if Succeeds(s, op) && Target(op) == Ok(path) {
      if op.CommitWriteOp? {
        NamedAfterCommit(s, op, path, i, id, address);
      } else if op.UpdateReplicasOp? {
        NamedAfterUpdate(s, op, path, i, id, address);
      } else if op.BeginUploadOp? {
        assert NewIds(op)[i] == id;
      } else {
        NamedByTheRest(s, op, path, i, id, address);
      }
    } else {
      assert NamedAt(s.root, path, i, id, address);
    }
  }

  lemma {:induction false} NamedByTheRest(s: State, op: Op, path: Path, i: nat, id: string, address: string)
    requires Succeeds(s, op) && Target(op) == Ok(path) && FileAt(Step(s, op).0.root, path) == FileAfter(s, op)
    requires !op.CommitWriteOp? && !op.UpdateReplicasOp? && !op.BeginUploadOp?
    requires NamedAt(Step(s, op).0.root, path, i, id, address)
    ensures NamedAt(s.root, path, i, id, address)
  {
  }

  lemma {:induction false} NamedAfterCommit(s: State, op: Op, path: Path, i: nat, id: string, address: string)
    requires ReservationsOk(s) && op.CommitWriteOp? && Succeeds(s, op) && Target(op) == Ok(path)
    requires FileAt(Step(s, op).0.root, path) == FileAfter(s, op) && NamedAt(Step(s, op).0.root, path, i, id, address)
    ensures NamedIn(s, path, id, address)
            || (op.writeId in s.writes && s.writes[op.writeId].expires > op.now
                && InSlot(s.writes[op.writeId], id, address))
  {
    CommitHoldsTheLock(s, op);
    var blocks, slots := CommittedFile(s.root, path).value.blocks, s.writes[op.writeId].slots;
    var j := PublishedNames(blocks, slots, op.confirmed, i, address);
    if j < |blocks| && blocks[j].id == id && address in blocks[j].addresses {
      assert NamedAt(s.root, path, j, id, address);
    }
  }

  /** A published block names what its slot named, the others what they named. */
  lemma {:induction false} PublishedNames(blocks: seq<BlockRecord>, slots: seq<WriteSlot>, confirmed: seq<Confirmed>,
        i: nat, address: string)
    returns (j: nat)
    requires Consecutive(slots) && |slots| == |confirmed| && i < |Publish(blocks, slots, confirmed).0|
    requires address in Publish(blocks, slots, confirmed).0[i].addresses
    ensures var id := Publish(blocks, slots, confirmed).0[i].id;
            || (j < |blocks| && blocks[j].id == id && address in blocks[j].addresses)
            || (exists k :: 0 <= k < |slots| && slots[k].blockId == id && address in slots[k].addresses)
  {
    var base := PublishStart(blocks, slots);
    PublishIsOverlay(blocks, slots, confirmed);
    j := i;
    if base <= i < base + |slots| {
      assert NewBlocksOf(slots, confirmed)[i - base] == PublishedBlock(slots[i - base], confirmed[i - base]);
    }
  }

  lemma {:induction false} NamedAfterUpdate(s: State, op: Op, path: Path, i: nat, id: string, address: string)
    requires op.UpdateReplicasOp? && Succeeds(s, op) && Target(op) == Ok(path)
    requires FileAt(Step(s, op).0.root, path) == FileAfter(s, op) && NamedAt(Step(s, op).0.root, path, i, id, address)
    ensures NamedIn(s, path, id, address)
            || (op.blockId == id && address in op.replacement && address !in op.expected)
  {
    var file := FileAt(s.root, path).value;
    if i == IndexOfBlock(file.blocks, op.blockId) {
      if address in op.expected {
        assert NamedAt(s.root, path, i, id, address);
      }
    } else {
      assert NamedAt(s.root, path, i, id, address);
    }
  }

  /** A replica list that is recorded is named. */
  lemma {:induction false} RepairNames(s: State, op: Op, address: string)
    requires op.UpdateReplicasOp? && Succeeds(s, op) && address in op.replacement
    ensures NamedSomewhere(Step(s, op).0, op.blockId, address)
  {
    var path := Target(op).value;
    var i := IndexOfBlock(FileAt(s.root, path).value.blocks, op.blockId);
    StepFiles(s, op, path);
    assert NamedAt(Step(s, op).0.root, path, i, op.blockId, address);
  }

  /** A replica list is replaced only by comparing it with the one recorded. */
  lemma {:induction false} ExpectedIsNamed(s: State, op: Op, address: string)
    requires op.UpdateReplicasOp? && Succeeds(s, op) && address in op.expected
    ensures NamedSomewhere(s, op.blockId, address)
  {
    var path := Target(op).value;
    var i := IndexOfBlock(FileAt(s.root, path).value.blocks, op.blockId);
    assert NamedAt(s.root, path, i, op.blockId, address);
  }

  // ----- Reservations of an id -----

  ghost predicate SlotNames(r: Reservation, id: string) {
    exists k :: 0 <= k < |r.slots| && r.slots[k].blockId == id
  }

  /** No reservation of this id lasts beyond `limit`. */
  ghost predicate ReservedUntil(s: State, id: string, limit: real) {
    forall w :: w in s.writes && SlotNames(s.writes[w], id) ==> s.writes[w].expires <= limit
  }

  lemma {:induction false} NewSlotIdsAreFresh(s: State, used: set<string>, op: Op)
    requires op.BeginWriteOp? && Succeeds(s, op) && FreshOp(used, op)
    ensures op.writeId in Step(s, op).0.writes
    ensures forall id :: SlotNames(Step(s, op).0.writes[op.writeId], id) ==> id !in used
  {
    BegunSlots(s, op);
    var slots := Step(s, op).0.writes[op.writeId].slots;
    forall k | 0 <= k < |slots| ensures slots[k].blockId !in used {
      assert NewIds(op)[1 + k] == slots[k].blockId;
    }
  }

  lemma {:induction false} ReservedUntilStep(s: State, used: set<string>, op: Op, id: string, limit: real)
    requires FreshOp(used, op) && id in used && ReservedUntil(s, id, limit)
    ensures ReservedUntil(Step(s, op).0, id, limit)
  {
    var s' := Step(s, op).0;
    forall w | w in s'.writes && SlotNames(s'.writes[w], id) ensures s'.writes[w].expires <= limit {
      StepWrites(s, op, w);
      if !(w in s.writes && s'.writes[w] == s.writes[w]) {
        NewSlotIdsAreFresh(s, used, op);
      }
    }
  }

  lemma {:induction false} NewReservationLease(s: State, op: Op, w: string)
    requires w in Step(s, op).0.writes
    ensures (w in s.writes && Step(s, op).0.writes[w] == s.writes[w])
            || (op.BeginWriteOp? && Step(s, op).0.writes[w].expires == op.now + op.lease)
  {
    StepWrites(s, op, w);
  }
}
