/** The re-replicator's cycle: which repairs it attempts, and that each is submitted while its
    copy is in flight, however often it is retried. */
module Rereplication {
  import opened Common
  import opened Tree
  import opened Copies
  import opened Replicas

  /** A repair the cycle attempts. */
  datatype Repair = Repair(
    path: string, blockId: string, expected: seq<string>, replacement: seq<string>, target: string)

  /** A change submitted under an operation id, and the copies in flight at that moment. */
  datatype Submission = Submission(repair: Repair, opId: string, inFlight: set<Copy>)

  /** How an attempt to copy ends, and how one to commit is answered. */
  datatype Transfer = Copied | OtherChecksum | Unreachable | Rejected

  datatype Answer = Applied | Unknown | PathGone | OtherError

  /** A repair of a block of the snapshot that still has a live replica. */
  ghost predicate RepairsBlock(r: Repair, snapshot: seq<(string, BlockRecord)>, alive: seq<string>, factor: nat) {
    && (exists i :: 0 <= i < |snapshot| && snapshot[i].0 == r.path && snapshot[i].1.id == r.blockId
                    && snapshot[i].1.addresses == r.expected)
    && GoodRepair(r.expected, r.replacement, r.target, Members(alive), factor)
    && Live(r.expected, Members(alive)) != []
  }

  /** It is of such a repair, and made while its copy is in flight. */
  ghost predicate Guarded(s: Submission, snapshot: seq<(string, BlockRecord)>, alive: seq<string>, factor: nat) {
    Copy(s.repair.blockId, s.repair.target) in s.inFlight && RepairsBlock(s.repair, snapshot, alive, factor)
  }

  /** The same submission several times. */
  function Repeated(s: Submission, times: nat): (r: seq<Submission>)
    ensures |r| == times && forall other :: other in r ==> other == s
  {
    if times == 0 then [] else Repeated(s, times - 1) + [s]
  }

  /** Some replica has been down for less than the delay: it may be restarting. */
  predicate JustDied(addresses: seq<string>, alive: seq<string>, deadFor: map<string, real>, delay: real) {
    exists a :: a in addresses && a !in alive && a in deadFor && deadFor[a] < delay
  }

  /** A block the cycle must take care of: it lost replicas, not all, long enough ago, and
      there is a node to copy it to. */
  ghost predicate NeedsRepair(addresses: seq<string>, alive: seq<string>, deadFor: map<string, real>, delay: real,
        factor: nat) {
    && 0 < |Live(addresses, Members(alive))| < factor
    && !JustDied(addresses, alive, deadFor, delay)
    && exists a :: a in alive && a !in addresses
  }

  /** A block of the snapshot with no live replica. */
  ghost predicate HasNoReplica(lost: (string, string), snapshot: seq<(string, BlockRecord)>, alive: seq<string>) {
    exists i :: 0 <= i < |snapshot| && lost == (snapshot[i].0, snapshot[i].1.id)
                && Live(snapshot[i].1.addresses, Members(alive)) == []
  }

  /** The blocks before `upTo` that need a repair, in order. */
  function Due(needs: nat -> bool, upTo: nat): seq<nat> {
    if upTo == 0 then []
    else if needs(upTo - 1) then Due(needs, upTo - 1) + [upTo - 1]
    else Due(needs, upTo - 1)
  }

  /** Exactly the blocks that lost some of their replicas but not all, none of them just now,
      and for which another node is alive. */
  lemma {:induction false} NeedsRepairExactly(addresses: seq<string>, alive: seq<string>, deadFor: map<string, real>,
        delay: real, factor: nat)
    ensures NeedsRepair(addresses, alive, deadFor, delay, factor) <==>
              && (exists a :: a in addresses && a in alive)
              && |Live(addresses, Members(alive))| < factor
              && (forall a :: a in addresses && a !in alive && a in deadFor ==> deadFor[a] >= delay)
              && exists a :: a in alive && a !in addresses
  {
    SomeLive(addresses, alive);
  }

  /** Those and no others are listed, once and in order. */
  lemma {:induction false} DueExactly(needs: nat -> bool, upTo: nat, i: nat)
    ensures i in Due(needs, upTo) <==> i < upTo && needs(i)
    ensures forall j, k :: 0 <= j < k < |Due(needs, upTo)| ==> Due(needs, upTo)[j] < Due(needs, upTo)[k] < upTo
    ensures forall k :: 0 <= k < |Due(needs, upTo)| ==> Due(needs, upTo)[k] < upTo && needs(Due(needs, upTo)[k])
  {
    if upTo > 0 {
      DueExactly(needs, upTo - 1, i);
    }
  }

  lemma {:induction false} SomeLive(addresses: seq<string>, alive: seq<string>)
    ensures Live(addresses, Members(alive)) != [] <==> exists a :: a in addresses && a in alive
  {
    var live := Live(addresses, Members(alive));
    if live != [] {
      assert live[0] in live;
    }
  }

  /** The copy that a turn makes: of the block, on the first live node that has none. */
  ghost predicate IsTurn(c: Copy, block: BlockRecord, alive: seq<string>) {
    && c.id == block.id
    && exists k :: 0 <= k < |alive| && alive[k] == c.address && alive[k] !in block.addresses
                   && forall j :: 0 <= j < k ==> alive[j] in block.addresses
  }

  /** The turns taken are those of the blocks due, from the first on. */
  ghost predicate TurnsOf(turns: seq<Copy>, snapshot: seq<(string, BlockRecord)>, alive: seq<string>, due: seq<nat>) {
    |turns| <= |due|
    && forall k :: 0 <= k < |turns| ==> due[k] < |snapshot| && IsTurn(turns[k], snapshot[due[k]].1, alive)
  }

  /** The blocks before `upTo` that no live node has. */
  function LostBefore(snapshot: seq<(string, BlockRecord)>, alive: seq<string>, upTo: nat): seq<(string, string)>
    requires upTo <= |snapshot|
  {
    if upTo == 0 then []
    else
      var before, entry := LostBefore(snapshot, alive, upTo - 1), snapshot[upTo - 1];
      if Live(entry.1.addresses, Members(alive)) == [] then before + [(entry.0, entry.1.id)] else before
  }

  lemma {:induction false} LostHasNoReplica(snapshot: seq<(string, BlockRecord)>, alive: seq<string>, upTo: nat,
        lost: (string, string))
    requires upTo <= |snapshot| && lost in LostBefore(snapshot, alive, upTo)
    ensures HasNoReplica(lost, snapshot, alive)
  {
    if lost in LostBefore(snapshot, alive, upTo - 1) {
      LostHasNoReplica(snapshot, alive, upTo - 1, lost);
    }
  }

  /** The blocks a cycle comes to if nothing but the stop signal ends it. */
  function Until(stop: Option<nat>, n: nat): nat {
    if stop.Some? && stop.value < n then stop.value else n
  }

  function Members(xs: seq<string>): set<string> {
    set x | x in xs
  }

  lemma {:induction false} DuePrefix(needs: nat -> bool, m: nat, n: nat)
    requires m <= n
    ensures Due(needs, m) <= Due(needs, n)
  {
    if m < n {
      DuePrefix(needs, m, n - 1);
    }
  }

  lemma {:induction false} DueGrows(needs: nat -> bool, m: nat, n: nat)
    requires m <= n
    ensures |Due(needs, m)| <= |Due(needs, n)|
    ensures m < n && needs(m) ==> |Due(needs, m)| < |Due(needs, n)|
  {
    if m < n {
      DuePrefix(needs, m + 1, n);
    }
  }

  // ----- Retries -----

  /** The source sends a copy with the right checksum, within the attempts, after failures that
      may pass. */
  predicate Delivers(transfers: nat -> Transfer, from: nat, attempts: nat)
    decreases attempts - from
  {
    && from < attempts
    && (transfers(from).Copied? || (transfers(from).Unreachable? && Delivers(transfers, from + 1, attempts)))
  }

  /** How often a commit is submitted: again while it is not known what became of it. */
  function Submits(answers: nat -> Answer, from: nat, attempts: nat): nat
    decreases attempts - from
  {
    if from >= attempts then 0
    else 1 + if answers(from).Unknown? then Submits(answers, from + 1, attempts) else 0
  }

  /** The answer that ends the retries is that the path is gone. */
  predicate FindsPathGone(answers: nat -> Answer, from: nat, attempts: nat)
    decreases attempts - from
  {
    && from < attempts
    && (answers(from).PathGone? || (answers(from).Unknown? && FindsPathGone(answers, from + 1, attempts)))
  }

  /** A copy is delivered if and only if an attempt within the limit delivers it, all those
      before it having found the source unreachable. */
  lemma {:induction false} DeliversIff(transfers: nat -> Transfer, from: nat, attempts: nat)
    ensures Delivers(transfers, from, attempts) <==>
            exists k: nat :: from <= k < attempts && transfers(k).Copied?
                             && forall j: nat :: from <= j < k ==> transfers(j).Unreachable?
    decreases attempts - from
  {
    if from < attempts {
      DeliversIff(transfers, from + 1, attempts);
      if transfers(from).Unreachable? && Delivers(transfers, from + 1, attempts) {
        var k: nat :| from + 1 <= k < attempts && transfers(k).Copied?
                      && forall j: nat :: from + 1 <= j < k ==> transfers(j).Unreachable?;
        assert forall j: nat :: from <= j < k ==> transfers(j).Unreachable?;
      }
    }
  }

  /** The commit is submitted up to the first answer that is known, or to the limit. */
  lemma {:induction false} SubmitsExactly(answers: nat -> Answer, from: nat, attempts: nat, k: nat)
    requires from <= k <= attempts && forall j: nat :: from <= j < k ==> answers(j).Unknown?
    ensures k == attempts ==> Submits(answers, from, attempts) == attempts - from
    ensures k < attempts && !answers(k).Unknown? ==> Submits(answers, from, attempts) == k - from + 1
    decreases attempts - from
  {
    if from < k {
      SubmitsExactly(answers, from + 1, attempts, k);
    }
  }

  /** The path is found gone by an answer within the limit, all those before it unknown. */
  lemma {:induction false} FindsPathGoneIff(answers: nat -> Answer, from: nat, attempts: nat)
    ensures FindsPathGone(answers, from, attempts) <==>
            exists k: nat :: from <= k < attempts && answers(k).PathGone?
                             && forall j: nat :: from <= j < k ==> answers(j).Unknown?
    decreases attempts - from
  {
    if from < attempts {
      FindsPathGoneIff(answers, from + 1, attempts);
      if answers(from).Unknown? && FindsPathGone(answers, from + 1, attempts) {
        var k: nat :| from + 1 <= k < attempts && answers(k).PathGone?
                      && forall j: nat :: from + 1 <= j < k ==> answers(j).Unknown?;
        assert forall j: nat :: from <= j < k ==> answers(j).Unknown?;
      }
    }
  }

  /** What the nodes and the log answer in a cycle. */
  datatype Environment = Environment(
    transfers: (string, string) -> (nat -> Transfer), answers: string -> (nat -> Answer), opIds: string -> string)

  predicate Served(env: Environment, blockId: string, live: seq<string>, attempts: nat) {
    exists i :: 0 <= i < |live| && Delivers(env.transfers(blockId, live[i]), 0, attempts)
  }

  /** What a turn submits, if some live node delivers the copy. */
  function SubmittedBy(path: string, block: BlockRecord, alive: seq<string>, c: Copy, env: Environment,
        attempts: nat): seq<Submission>
  {
    var live := Live(block.addresses, Members(alive));
    if Served(env, block.id, live, attempts) then
      Repeated(Submission(Repair(path, block.id, block.addresses, live + [c.address], c.address), env.opIds(block.id),
                          {c}),
               Submits(env.answers(block.id), 0, attempts))
    else []
  }

  /** A turn submits, as often as the answers ask for, one change of the block as it was read:
      from the nodes recorded to those of them that live, in order, and the new one. Without a
      live node that delivers the copy it submits nothing. */
  lemma {:induction false} SubmittedByExactly(path: string, block: BlockRecord, alive: seq<string>, c: Copy,
        env: Environment, attempts: nat, live: seq<string>)
    requires live == Live(block.addresses, Members(alive))
    ensures |SubmittedBy(path, block, alive, c, env, attempts)|
            == if exists i :: 0 <= i < |live| && Delivers(env.transfers(block.id, live[i]), 0, attempts)
               then Submits(env.answers(block.id), 0, attempts) else 0
    ensures forall s :: s in SubmittedBy(path, block, alive, c, env, attempts) ==>
              && s.opId == env.opIds(block.id) && s.inFlight == {c} && s.repair.path == path
              && s.repair.blockId == block.id && s.repair.expected == block.addresses
              && s.repair.target == c.address && s.repair.replacement == live + [c.address]
  {
    var all := SubmittedBy(path, block, alive, c, env, attempts);
    forall s | s in all ensures s.repair.replacement == live + [c.address] {
    }
  }

  /** What turns submit, one after the other; `turn` gives what one does. */
  function SubmittedIn(turn: (nat, Copy) -> seq<Submission>, due: seq<nat>, turns: seq<Copy>): seq<Submission>
    requires |turns| <= |due|
  {
    if turns == [] then []
    else SubmittedIn(turn, due, turns[..|turns| - 1]) + turn(due[|turns| - 1], turns[|turns| - 1])
  }

  lemma {:induction false} SubmittedInPrefix(turn: (nat, Copy) -> seq<Submission>, due: seq<nat>, more: seq<nat>,
        turns: seq<Copy>)
    requires |turns| <= |due| && due <= more
    ensures SubmittedIn(turn, more, turns) == SubmittedIn(turn, due, turns)
  {
    if turns != [] {
      SubmittedInPrefix(turn, due, more, turns[..|turns| - 1]);
    }
  }

  lemma {:induction false} OneMoreTurn(turn: (nat, Copy) -> seq<Submission>, due: seq<nat>, i: nat, turns: seq<Copy>,
        c: Copy)
    requires |turns| == |due|
    ensures SubmittedIn(turn, due + [i], turns + [c]) == SubmittedIn(turn, due, turns) + turn(i, c)
  {
    assert (turns + [c])[..|turns + [c]| - 1] == turns;
    SubmittedInPrefix(turn, due, due + [i], turns);
  }

  lemma {:induction false} SubmittedByTurn(turn: (nat, Copy) -> seq<Submission>, due: seq<nat>, turns: seq<Copy>,
        s: Submission) returns (k: nat)
    requires |turns| <= |due| && s in SubmittedIn(turn, due, turns)
    ensures k < |turns| && s in turn(due[k], turns[k])
  {
    if s in SubmittedIn(turn, due, turns[..|turns| - 1]) {
      k := SubmittedByTurn(turn, due, turns[..|turns| - 1], s);
    } else {
      k := |turns| - 1;
    }
  }

  /** Which blocks of a snapshot a cycle must take care of. */
  ghost function Needing(snapshot: seq<(string, BlockRecord)>, alive: seq<string>, deadFor: map<string, real>,
                         delay: real, factor: nat): nat -> bool
  {
    (i: nat) => i < |snapshot| && NeedsRepair(snapshot[i].1.addresses, alive, deadFor, delay, factor)
  }

  /** What a turn of each block submits. */
  function Submitting(snapshot: seq<(string, BlockRecord)>, alive: seq<string>, env: Environment,
        attempts: nat): (nat, Copy) -> seq<Submission>
  {
    (i: nat, c: Copy) =>
      if i < |snapshot| then SubmittedBy(snapshot[i].0, snapshot[i].1, alive, c, env, attempts) else []
  }

  /** What a turn submits is a good repair, guarded by its copy being in flight. */
  lemma {:induction false} TurnIsGuarded(snapshot: seq<(string, BlockRecord)>, alive: seq<string>, i: nat, c: Copy,
        env: Environment, attempts: nat, deadFor: map<string, real>, delay: real, factor: nat, s: Submission)
    requires i < |snapshot| && NeedsRepair(snapshot[i].1.addresses, alive, deadFor, delay, factor)
    requires IsTurn(c, snapshot[i].1, alive)
    requires s in SubmittedBy(snapshot[i].0, snapshot[i].1, alive, c, env, attempts)
    ensures Guarded(s, snapshot, alive, factor)
  {
  }

  /** What a cycle leaves when it has come to block `n`. */
  ghost predicate AfterBlocks(turns: seq<Copy>, submitted: seq<Submission>, lost: seq<(string, string)>,
        snapshot: seq<(string, BlockRecord)>, alive: seq<string>, needs: nat -> bool,
        turn: (nat, Copy) -> seq<Submission>, n: nat)
    requires n <= |snapshot|
  {
    && |turns| == |Due(needs, n)| && submitted == SubmittedIn(turn, Due(needs, n), turns)
    && TurnsOf(turns, snapshot, alive, Due(needs, n)) && lost == LostBefore(snapshot, alive, n)
  }

  lemma {:induction false} BlockPassedOver(turns: seq<Copy>, submitted: seq<Submission>, lost: seq<(string, string)>,
        snapshot: seq<(string, BlockRecord)>, alive: seq<string>, needs: nat -> bool,
        turn: (nat, Copy) -> seq<Submission>, n: nat)
    requires n < |snapshot| && AfterBlocks(turns, submitted, lost, snapshot, alive, needs, turn, n) && !needs(n)
    ensures var lost' := if Live(snapshot[n].1.addresses, Members(alive)) == []
                         then lost + [(snapshot[n].0, snapshot[n].1.id)] else lost;
            AfterBlocks(turns, submitted, lost', snapshot, alive, needs, turn, n + 1)
  {
  }

  lemma {:induction false} BlockTakesTurn(turns: seq<Copy>, submitted: seq<Submission>, lost: seq<(string, string)>,
        snapshot: seq<(string, BlockRecord)>, alive: seq<string>, needs: nat -> bool,
        turn: (nat, Copy) -> seq<Submission>, n: nat, c: Copy)
    requires n < |snapshot| && AfterBlocks(turns, submitted, lost, snapshot, alive, needs, turn, n) && needs(n)
    requires IsTurn(c, snapshot[n].1, alive) && Live(snapshot[n].1.addresses, Members(alive)) != []
    ensures AfterBlocks(turns + [c], submitted + turn(n, c), lost, snapshot, alive, needs, turn, n + 1)
  {
    OneMoreTurn(turn, Due(needs, n), n, turns, c);
  }

  class ReReplicator {
    const factor: nat
    const maxPerCycle: nat
    const maxAttempts: nat
    const delay: real
    var inFlight: set<Copy>
    var lostBlocks: seq<(string, string)>
    var ignoredPaths: seq<string>
    /** The copies that had their turn, and what was submitted. */
    ghost var turns: seq<Copy>
    ghost var submitted: seq<Submission>

    constructor (factor: nat, maxPerCycle: nat, maxAttempts: nat, delay: real)
      requires factor > 0
      ensures inFlight == {} && turns == [] && submitted == []
      ensures this.factor == factor && this.maxPerCycle == maxPerCycle && this.maxAttempts == maxAttempts
      ensures this.delay == delay
    {
      this.factor, this.maxPerCycle, this.maxAttempts, this.delay := factor, maxPerCycle, maxAttempts, delay;
      inFlight, lostBlocks, ignoredPaths, turns, submitted := {}, [], [], [], [];
    }

    /** The first live node that is not already recorded. */
    method PickTarget(alive: seq<string>, expected: seq<string>) returns (target: Option<string>)
      ensures target.None? <==> forall a :: a in alive ==> a in expected
      ensures target.Some? ==> target.value in alive && target.value !in expected
      ensures target.Some? ==>
                exists k :: 0 <= k < |alive| && alive[k] == target.value
                            && forall j :: 0 <= j < k ==> alive[j] in expected
    {
      for i := 0 to |alive|
        invariant forall k :: 0 <= k < i ==> alive[k] in expected
      {
        if alive[i] !in expected {
          return Some(alive[i]);
        }
      }
      return None;
    }

    /** `_replicate`: one source, tried again while it cannot be reached. */
    method Replicate(transfers: nat -> Transfer) returns (copied: bool)
      ensures copied <==> Delivers(transfers, 0, maxAttempts)
    {
      for attempt := 0 to maxAttempts
        invariant Delivers(transfers, 0, maxAttempts) == Delivers(transfers, attempt, maxAttempts)
      {
        if transfers(attempt).Copied? {
          return true;
        }
        if !transfers(attempt).Unreachable? {
          return false;
        }
      }
      return false;
    }

    /** `_commit_replicas`: submitted again under the same operation id while the outcome is
        unknown, up to the attempts allowed, after which it stays unresolved. */
    method CommitReplicas(repair: Repair, opId: string, answers: nat -> Answer)
      modifies this`submitted, this`ignoredPaths
      ensures submitted
              == old(submitted) + Repeated(Submission(repair, opId, inFlight), Submits(answers, 0, maxAttempts))
      ensures ignoredPaths
              == old(ignoredPaths) + if FindsPathGone(answers, 0, maxAttempts) then [repair.path] else []
    {
      for attempt := 0 to maxAttempts
        invariant submitted == old(submitted) + Repeated(Submission(repair, opId, inFlight), attempt)
        invariant Submits(answers, 0, maxAttempts) == attempt + Submits(answers, attempt, maxAttempts)
        invariant FindsPathGone(answers, 0, maxAttempts) == FindsPathGone(answers, attempt, maxAttempts)
        invariant ignoredPaths == old(ignoredPaths)
      {
        submitted := submitted + [Submission(repair, opId, inFlight)];
        if !answers(attempt).Unknown? {
          if answers(attempt).PathGone? {
            ignoredPaths := ignoredPaths + [repair.path];
          }
          return;
        }
      }
    }

    /** The turn of one block: the copy is in flight while the sources are tried, in order
        until one succeeds, and while the change is submitted. */
    method RepairBlock(path: string, block: BlockRecord, alive: seq<string>, target: string, env: Environment)
      requires inFlight == {}
      modifies this`inFlight, this`turns, this`submitted, this`ignoredPaths
      ensures inFlight == {} && turns == old(turns) + [Copy(block.id, target)]
      ensures submitted == old(submitted) + SubmittedBy(path, block, alive, Copy(block.id, target), env, maxAttempts)
      ensures ignoredPaths == old(ignoredPaths)
              + if Served(env, block.id, Live(block.addresses, Members(alive)), maxAttempts)
                   && FindsPathGone(env.answers(block.id), 0, maxAttempts) then [path] else []
    {
      var copy := Copy(block.id, target);
      var live := Live(block.addresses, Members(alive));
      turns := turns + [copy];
      inFlight := inFlight + {copy};
      assert inFlight == {copy};
      var copied := CopyFromSome(env, block.id, live);
      if copied {
        var repair := Repair(path, block.id, block.addresses, live + [target], target);
        CommitReplicas(repair, env.opIds(block.id), env.answers(block.id));
      }
      inFlight := inFlight - {copy};
    }

    /** The sources are tried in order until one succeeds. */
    method CopyFromSome(env: Environment, blockId: string, live: seq<string>) returns (copied: bool)
      ensures copied <==> Served(env, blockId, live, maxAttempts)
    {
      for i := 0 to |live|
        invariant forall k :: 0 <= k < i ==> !Delivers(env.transfers(blockId, live[k]), 0, maxAttempts)
      {
        var delivered := Replicate(env.transfers(blockId, live[i]));
        if delivered {
          return true;
        }
      }
      return false;
    }

    /** The turns of the blocks before `n` have been taken. */
    ghost predicate Caught(snapshot: seq<(string, BlockRecord)>, alive: seq<string>, needs: nat -> bool,
          turn: (nat, Copy) -> seq<Submission>, n: nat)
      requires n <= |snapshot|
      reads this
    {
      AfterBlocks(turns, submitted, lostBlocks, snapshot, alive, needs, turn, n)
    }

    lemma {:induction false} EndOfCycle(snapshot: seq<(string, BlockRecord)>, alive: seq<string>,
          deadFor: map<string, real>, env: Environment, needs: nat -> bool, turn: (nat, Copy) -> seq<Submission>,
          n: nat, until: nat)
      requires n <= until <= |snapshot| && Caught(snapshot, alive, needs, turn, n)
      requires needs == Needing(snapshot, alive, deadFor, delay, factor)
      requires turn == Submitting(snapshot, alive, env, maxAttempts)
      ensures |turns| <= |Due(needs, until)| && TurnsOf(turns, snapshot, alive, Due(needs, until))
      ensures submitted == SubmittedIn(turn, Due(needs, until), turns)
      ensures forall s :: s in submitted ==> Guarded(s, snapshot, alive, factor)
      ensures forall lost :: lost in lostBlocks ==> HasNoReplica(lost, snapshot, alive)
    {
      var due := Due(needs, n);
      DuePrefix(needs, n, until);
      SubmittedInPrefix(turn, due, Due(needs, until), turns);
      forall s | s in submitted ensures Guarded(s, snapshot, alive, factor) {
        var k := SubmittedByTurn(turn, due, turns, s);
        DueExactly(needs, n, due[k]);
        TurnIsGuarded(snapshot, alive, due[k], turns[k], env, maxAttempts, deadFor, delay, factor, s);
      }
      forall lost | lost in lostBlocks ensures HasNoReplica(lost, snapshot, alive) {
        LostHasNoReplica(snapshot, alive, n, lost);
      }
    }

    /** One turn of the loop: a block with enough replicas, with none, with one that may be
        restarting, or with no other node, is passed over; otherwise it is repaired, unless the
        leadership is lost. */
    method VisitBlock(snapshot: seq<(string, BlockRecord)>, n: nat, alive: seq<string>, deadFor: map<string, real>,
                      env: Environment, leader: bool, ghost needs: nat -> bool,
                      ghost turn: (nat, Copy) -> seq<Submission>)
      returns (repaired: bool, over: bool)
      requires n < |snapshot| && inFlight == {} && factor > 0 && Caught(snapshot, alive, needs, turn, n)
      requires Describes(snapshot, n, alive, deadFor, env, needs, turn)
      modifies this
      ensures inFlight == {}
      ensures over <==> !leader && needs(n)
      ensures over ==> turns == old(turns) && Caught(snapshot, alive, needs, turn, n)
      ensures !over ==> Caught(snapshot, alive, needs, turn, n + 1)
      ensures !over ==> |turns| == |old(turns)| + if repaired then 1 else 0
    {
      var path, block := snapshot[n].0, snapshot[n].1;
      var live := Live(block.addresses, Members(alive));
      repaired, over := false, false;
      if !needs(n) {
        BlockPassedOver(turns, submitted, lostBlocks, snapshot, alive, needs, turn, n);
      }
      if |live| >= factor {
        return;
      }
      if live == [] {
        lostBlocks := lostBlocks + [(path, block.id)];
        return;
      }
      if JustDied(block.addresses, alive, deadFor, delay) {
        return;
      }
      var target := PickTarget(alive, block.addresses);
      if target.None? {
        return;
      }
      if !leader {
        return false, true;
      }
      BlockTakesTurn(turns, submitted, lostBlocks, snapshot, alive, needs, turn, n, Copy(block.id, target.value));
      RepairBlock(path, block, alive, target.value, env);
      repaired := true;
    }

    /** `run_cycle` over its snapshot. `deadFor` tells how long an address has been down; one
        it does not know counts as down for ever. `leads` tells for how many repairs this node
        is still found to be the leader, `stop` before which block the service is stopped. */
    method RunCycle(snapshot: seq<(string, BlockRecord)>, alive: seq<string>, deadFor: map<string, real>,
                    env: Environment, leads: nat, stop: Option<nat>)
      requires inFlight == {} && turns == [] && submitted == [] && factor > 0
      modifies this
      ensures inFlight == {}
      ensures var due := Due(Needing(snapshot, alive, deadFor, delay, factor), Until(stop, |snapshot|));
              && |turns| == Min(|due|, Min(maxPerCycle, leads)) && TurnsOf(turns, snapshot, alive, due)
              && submitted == SubmittedIn(Submitting(snapshot, alive, env, maxAttempts), due, turns)
      ensures forall s :: s in submitted ==> Guarded(s, snapshot, alive, factor)
      ensures forall lost :: lost in lostBlocks ==> HasNoReplica(lost, snapshot, alive)
      ensures |turns| < maxPerCycle && |turns| < leads ==>
                lostBlocks == LostBefore(snapshot, alive, Until(stop, |snapshot|))
    {
      ghost var needs, turn := Needing(snapshot, alive, deadFor, delay, factor),
                               Submitting(snapshot, alive, env, maxAttempts);
      ghost var seen := VisitBlocks(snapshot, alive, deadFor, env, leads, stop, needs, turn);
      EndOfCycle(snapshot, alive, deadFor, env, needs, turn, seen, Until(stop, |snapshot|));
    }

    /** The loop over the snapshot; it has `seen` the blocks whose turns are over. */
    method VisitBlocks(snapshot: seq<(string, BlockRecord)>, alive: seq<string>, deadFor: map<string, real>,
                       env: Environment, leads: nat, stop: Option<nat>, ghost needs: nat -> bool,
                       ghost turn: (nat, Copy) -> seq<Submission>)
      returns (ghost seen: nat)
      requires inFlight == {} && turns == [] && submitted == [] && factor > 0
      requires forall n: nat :: n < |snapshot| ==> Describes(snapshot, n, alive, deadFor, env, needs, turn)
      modifies this
      ensures inFlight == {} && seen <= Until(stop, |snapshot|) && Caught(snapshot, alive, needs, turn, seen)
      ensures |turns| == Min(|Due(needs, Until(stop, |snapshot|))|, Min(maxPerCycle, leads))
      ensures |turns| < maxPerCycle && |turns| < leads ==> seen == Until(stop, |snapshot|)
    {
      lostBlocks, ignoredPaths := [], [];
      var completed := 0;
      seen := 0;
      for n := 0 to |snapshot|
        invariant seen == n <= Until(stop, |snapshot|) && inFlight == {}
        invariant completed == |turns| <= maxPerCycle && completed <= leads
        invariant Caught(snapshot, alive, needs, turn, n)
      {
        DueGrows(needs, n, Until(stop, |snapshot|));
        if completed >= maxPerCycle || stop == Some(n) {
          break;
        }
        assert Describes(snapshot, n, alive, deadFor, env, needs, turn);
        var repaired, over := VisitBlock(snapshot, n, alive, deadFor, env, completed < leads, needs, turn);
        if over {
          return;
        }
        seen := n + 1;
        completed := completed + if repaired then 1 else 0;
      }
    }

    /** What is said of block `n` is what the cycle does with it. */
    ghost predicate Describes(snapshot: seq<(string, BlockRecord)>, n: nat, alive: seq<string>,
          deadFor: map<string, real>, env: Environment, needs: nat -> bool, turn: (nat, Copy) -> seq<Submission>)
      requires n < |snapshot|
    {
      && (needs(n) <==> NeedsRepair(snapshot[n].1.addresses, alive, deadFor, delay, factor))
      && forall c :: turn(n, c) == SubmittedBy(snapshot[n].0, snapshot[n].1, alive, c, env, maxAttempts)
    }
  }
}
