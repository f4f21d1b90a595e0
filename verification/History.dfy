/** Fresh identifiers over a run of commands. The servicer draws block, lock and write
    ids with uuid4, so a command never reuses an id that an earlier one introduced. */
module History {
  import opened Common
  import opened Mutations

  function PlacementIds(placements: seq<Placement>): (r: seq<string>)
    ensures |r| == |placements| && forall i :: 0 <= i < |r| ==> r[i] == placements[i].id
  {
    if placements == [] then [] else [placements[0].id] + PlacementIds(placements[1..])
  }

  function ProposalIds(proposals: seq<Proposal>): (r: seq<string>)
    ensures |r| == |proposals| && forall i :: 0 <= i < |r| ==> r[i] == proposals[i].id
  {
    if proposals == [] then [] else [proposals[0].id] + ProposalIds(proposals[1..])
  }

  /** The ids a command introduces. */
  function NewIds(op: Op): seq<string> {
    match op
    case BeginUploadOp(_, placements, _, _, _, _) => PlacementIds(placements)
    case BeginWriteOp(_, writeId, _, _, _, _, proposals, _, _, _, _) => [writeId] + ProposalIds(proposals)
    case AcquireLockOp(_, lockId, _, _, _, _, _) => [lockId]
    case _ => []
  }

  ghost predicate FreshOp(used: set<string>, op: Op) {
    Distinct(NewIds(op)) && forall i :: 0 <= i < |NewIds(op)| ==> NewIds(op)[i] !in used
  }

  function Learn(used: set<string>, op: Op): set<string> {
    used + set id | id in NewIds(op)
  }

  ghost predicate FreshRun(used: set<string>, ops: seq<Op>)
    decreases |ops|
  {
    ops == [] || (FreshOp(used, ops[0]) && FreshRun(Learn(used, ops[0]), ops[1..]))
  }

  function LearnAll(used: set<string>, ops: seq<Op>): (r: set<string>)
    ensures used <= r
    decreases |ops|
  {
    if ops == [] then used else LearnAll(Learn(used, ops[0]), ops[1..])
  }

  /** A fresh command neither grants a known lock id nor opens a known write id. */
  lemma {:induction false} FreshOpIntroducesNothingUsed(used: set<string>, op: Op, id: string)
    requires FreshOp(used, op) && id in used
    ensures op.AcquireLockOp? ==> op.lockId != id
    ensures op.BeginWriteOp? ==> op.writeId != id
  {
    if op.AcquireLockOp? || op.BeginWriteOp? {
      var first := NewIds(op)[0];
      assert first !in used;
    }
  }

  /** Running a log piece by piece. */
  lemma {:induction false} RunConcat(s: State, used: set<string>, xs: seq<Op>, ys: seq<Op>)
    ensures Run(s, xs + ys) == Run(Run(s, xs), ys)
    ensures LearnAll(used, xs + ys) == LearnAll(LearnAll(used, xs), ys)
    ensures FreshRun(used, xs + ys) <==> FreshRun(used, xs) && FreshRun(LearnAll(used, xs), ys)
    decreases |xs|
  {
    if xs == [] {
      assert xs + ys == ys;
    } else {
      assert (xs + ys)[1..] == xs[1..] + ys;
      RunConcat(Step(s, xs[0]).0, Learn(used, xs[0]), xs[1..], ys);
    }
  }
}
