/** The garbage collector against everything that runs beside it. A cycle reads the
    inventory of the nodes, then the copies in flight, then the metadata, and deletes later;
    meanwhile commands are applied and re-replication goes on. What it deletes is never a
    copy that the metadata assigns, if and only if no repair of that copy is applied after
    the metadata was read. */
module Collector {
  import opened Mutations
  import opened Effects
  import opened History
  import opened Locking
  import opened Conservation
  import opened Walks
  import opened Copies

  /** Where a cycle is: `listed` holds the age each copy had when its node was listed. */
  datatype Cycle =
    | Idle
    | Listing(listed: map<Copy, real>)
    | FlightRead(listed: map<Copy, real>, spared: set<Copy>)
    | Deleting(listed: map<Copy, real>, spared: set<Copy>, refs: iset<Copy>)

  /** `copies` gives the time at which each copy was stored; `inFlight` are the copies made
      by the re-replicator whose commit is not resolved. */
  datatype System = System(
    s: State, used: set<string>, clock: real, copies: map<Copy, real>, inFlight: set<Copy>, cycle: Cycle)

  /** Bounds: the lease of reservations, how long a command may take from its time stamp to
      its application, and the grace the collector gives. */
  datatype Bounds = Bounds(lease: real, delay: real, grace: real)

  datatype Event =
    | Applied(op: Op)
    | Stored(stored: set<Copy>)
    | Lost(copy: Copy)
    | CopyStarts(copy: Copy)
    | CopyEnds(copy: Copy)
    | Tick(now: real)
    | CycleStarts
    | NodeListed(address: string)
    | InFlightRead
    | MetadataRead
    | Deleted(copy: Copy)

  ghost predicate Refers(s: State, now: real, c: Copy) {
    Assigned(s, now, c.id, c.address)
  }

  /** The test `run_cycle` makes before it deletes. */
  ghost predicate Deletable(listed: map<Copy, real>, spared: set<Copy>, refs: iset<Copy>, grace: real, c: Copy) {
    c in listed && c !in refs && c !in spared && listed[c] >= grace
  }

  /** What can happen. Ids are fresh; a command is applied at most `delay` after its time
      stamp; a reservation is of at most `lease`; blocks are stored only under ids already
      introduced, and lost at any time. Repairs are free: they may start and be applied at
      any time. */
  ghost predicate Allowed(b: Bounds, y: System, e: Event) {
    match e
    case Applied(op) =>
      && FreshOp(y.used, op)
      && (Timed(op) ==> y.clock - b.delay <= op.now <= y.clock)
      && (op.BeginWriteOp? ==> op.lease <= b.lease)
    case Stored(cs) => forall c :: c in cs ==> c.id in y.used
    case Lost(_) => true
    case CopyStarts(c) => c.id in y.used
    case CopyEnds(_) => true
    case Tick(now) => now >= y.clock
    case CycleStarts => true
    case NodeListed(_) => y.cycle.Listing?
    case InFlightRead => y.cycle.Listing?
    case MetadataRead => y.cycle.FlightRead?
    case Deleted(c) => y.cycle.Deleting? && Deletable(y.cycle.listed, y.cycle.spared, y.cycle.refs, b.grace, c)
  }

  ghost function Next(b: Bounds, y: System, e: Event): System
    requires Allowed(b, y, e)
  {
    match e
    case Applied(op) => y.(s := Step(y.s, op).0, used := Learn(y.used, op))
    case Stored(cs) => y.(copies := y.copies + map c | c in cs :: y.clock)
    case Lost(c) => y.(copies := y.copies - {c})
    case CopyStarts(c) => y.(inFlight := y.inFlight + {c})
    case CopyEnds(c) => y.(inFlight := y.inFlight - {c})
    case Tick(now) => y.(clock := now)
    case CycleStarts => y.(cycle := Listing(map[]))
    case NodeListed(address) => y.(cycle := Listing(y.cycle.listed + Ages(y, address)))
    case InFlightRead => y.(cycle := FlightRead(y.cycle.listed, y.inFlight))
    case MetadataRead => y.(cycle := Deleting(y.cycle.listed, y.cycle.spared, iset c: Copy | Refers(y.s, y.clock, c)))
    case Deleted(c) => y.(copies := y.copies - {c})
  }

  /** What one node answers. */
  function Ages(y: System, address: string): map<Copy, real> {
    map c | c in y.copies && c.address == address :: y.clock - y.copies[c]
  }

  // ----- What every event keeps -----

  /** A copy no file names and no reservation that could still commit names. */
  ghost predicate Doomed(b: Bounds, y: System, c: Copy) {
    && c.id in y.used
    && !NamedSomewhere(y.s, c.id, c.address)
    && ReservedUntil(y.s, c.id, y.clock - b.delay)
  }

  ghost predicate ListedRight(b: Bounds, y: System, listed: map<Copy, real>) {
    forall c :: c in listed ==> c.id in y.used && ReservedUntil(y.s, c.id, y.clock - listed[c] + b.lease)
  }

  ghost predicate Inv(b: Bounds, y: System) {
    && Sound(y.s, y.used)
    && (forall w :: w in y.s.writes ==> y.s.writes[w].expires <= y.clock + b.lease)
    && (forall c :: c in y.copies ==> c.id in y.used && ReservedUntil(y.s, c.id, y.copies[c] + b.lease))
    && (!y.cycle.Idle? ==> ListedRight(b, y, y.cycle.listed))
  }

  lemma {:induction false} CommandKeepsInv(b: Bounds, y: System, op: Op)
    requires Inv(b, y) && Allowed(b, y, Applied(op))
    ensures Inv(b, Next(b, y, Applied(op)))
  {
    var y' := Next(b, y, Applied(op));
    SoundStep(y.s, y.used, op);
    forall w | w in y'.s.writes ensures y'.s.writes[w].expires <= y.clock + b.lease {
      NewReservationLease(y.s, op, w);
    }
    forall c | c in y.copies ensures ReservedUntil(y'.s, c.id, y.copies[c] + b.lease) {
      ReservedUntilStep(y.s, y.used, op, c.id, y.copies[c] + b.lease);
    }
    if !y.cycle.Idle? {
      forall c | c in y.cycle.listed ensures ReservedUntil(y'.s, c.id, y.clock - y.cycle.listed[c] + b.lease) {
        ReservedUntilStep(y.s, y.used, op, c.id, y.clock - y.cycle.listed[c] + b.lease);
      }
    }
  }

  lemma {:induction false} ListingKeepsInv(b: Bounds, y: System, address: string)
    requires Inv(b, y) && Allowed(b, y, NodeListed(address))
    ensures Inv(b, Next(b, y, NodeListed(address)))
  {
  }

  lemma {:induction false} StoringKeepsInv(b: Bounds, y: System, copies: map<Copy, real>)
    requires Inv(b, y)
    requires forall c :: c in copies ==> c.id in y.used && ReservedUntil(y.s, c.id, copies[c] + b.lease)
    ensures Inv(b, y.(copies := copies))
  {
  }

  lemma {:induction false} PassingKeepsInv(b: Bounds, y: System, y': System)
    requires Inv(b, y) && y'.s == y.s && y'.used == y.used && y'.copies == y.copies && y'.clock >= y.clock
    requires !y'.cycle.Idle? ==> y'.cycle.listed == map[] || (!y.cycle.Idle? && y'.cycle.listed == y.cycle.listed)
    ensures Inv(b, y')
  {
  }

  lemma {:induction false} EventKeepsInv(b: Bounds, y: System, e: Event)
    requires Inv(b, y) && Allowed(b, y, e)
    ensures Inv(b, Next(b, y, e))
  {
    match e
    case Applied(op) => CommandKeepsInv(b, y, op);
    case NodeListed(address) => ListingKeepsInv(b, y, address);
    case Stored(_) => StoringKeepsInv(b, y, Next(b, y, e).copies);
    case Lost(_) => StoringKeepsInv(b, y, Next(b, y, e).copies);
    case Deleted(_) => StoringKeepsInv(b, y, Next(b, y, e).copies);
    case _ => PassingKeepsInv(b, y, Next(b, y, e));
  }

  // ----- Runs -----

  ghost predicate AllowedRun(b: Bounds, y: System, events: seq<Event>)
    decreases |events|
  {
    events == [] || (Allowed(b, y, events[0]) && AllowedRun(b, Next(b, y, events[0]), events[1..]))
  }

  ghost function End(b: Bounds, y: System, events: seq<Event>): System
    requires AllowedRun(b, y, events)
    decreases |events|
  {
    if events == [] then y else End(b, Next(b, y, events[0]), events[1..])
  }

  lemma {:induction false} InvRun(b: Bounds, y: System, events: seq<Event>)
    requires Inv(b, y) && AllowedRun(b, y, events)
    ensures Inv(b, End(b, y, events))
    decreases |events|
  {
    if events != [] {
      EventKeepsInv(b, y, events[0]);
      InvRun(b, Next(b, y, events[0]), events[1..]);
    }
  }

  lemma {:induction false} RunConcatenation(b: Bounds, y: System, xs: seq<Event>, ys: seq<Event>)
    ensures AllowedRun(b, y, xs + ys) <==> AllowedRun(b, y, xs) && AllowedRun(b, End(b, y, xs), ys)
    ensures AllowedRun(b, y, xs + ys) ==> End(b, y, xs + ys) == End(b, End(b, y, xs), ys)
    decreases |xs|
  {
    if xs == [] {
      assert xs + ys == ys;
    } else {
      assert (xs + ys)[0] == xs[0] && (xs + ys)[1..] == xs[1..] + ys;
      if Allowed(b, y, xs[0]) {
        RunConcatenation(b, Next(b, y, xs[0]), xs[1..], ys);
      }
    }
  }

  // ----- When the deletions of a cycle are safe -----

  /** When the metadata is read, what it does not name is doomed: a copy older than the grace
      can only belong to a reservation whose last possible commit is already applied. */
  lemma {:induction false} UnnamedIsDoomed(b: Bounds, y: System, c: Copy)
    requires Inv(b, y) && y.cycle.FlightRead? && b.grace >= b.lease + b.delay
    requires c in y.cycle.listed && y.cycle.listed[c] >= b.grace && !Refers(y.s, y.clock, c)
    ensures Doomed(b, y, c)
  {
    assert ReservedUntil(y.s, c.id, y.clock - y.cycle.listed[c] + b.lease);
  }

  lemma {:induction false} DoomedIsUnassigned(b: Bounds, y: System, c: Copy, now: real)
    requires Doomed(b, y, c) && b.delay >= 0.0 && now >= y.clock
    ensures !Refers(y.s, now, c)
  {
    forall w, k ensures !ReservedAt(y.s.writes, w, k, now, c.id, c.address) {
      if w in y.s.writes && y.s.writes[w].expires > now {
        assert !SlotNames(y.s.writes[w], c.id);
      }
    }
  }

  /** A repair of this very copy is applied and succeeds. */
  ghost predicate Repairs(y: System, e: Event, c: Copy) {
    e.Applied? && e.op.UpdateReplicasOp? && Succeeds(y.s, e.op) && e.op.blockId == c.id && c.address in e.op.replacement
  }

  lemma {:induction false} DoomedCommand(b: Bounds, y: System, op: Op, c: Copy)
    requires Sound(y.s, y.used) && Allowed(b, y, Applied(op)) && Doomed(b, y, c) && !Repairs(y, Applied(op), c)
    ensures Doomed(b, Next(b, y, Applied(op)), c)
  {
    var s' := Step(y.s, op).0;
    ReservedUntilStep(y.s, y.used, op, c.id, y.clock - b.delay);
    if NamedSomewhere(s', c.id, c.address) {
      var path, i :| NamedAt(s'.root, path, i, c.id, c.address);
      NamedAfterStep(y.s, op, path, i, c.id, c.address);
    }
  }

  /** Nothing but a repair of it can bring a doomed copy back. */
  lemma {:induction false} DoomedStep(b: Bounds, y: System, e: Event, c: Copy)
    requires Sound(y.s, y.used) && Allowed(b, y, e) && Doomed(b, y, c) && !Repairs(y, e, c)
    ensures Doomed(b, Next(b, y, e), c)
  {
    if e.Applied? {
      DoomedCommand(b, y, e.op, c);
    }
  }

  lemma {:induction false} SoundNext(b: Bounds, y: System, e: Event)
    requires Sound(y.s, y.used) && Allowed(b, y, e)
    ensures Sound(Next(b, y, e).s, Next(b, y, e).used)
  {
    if e.Applied? {
      SoundStep(y.s, y.used, e.op);
    }
  }

  /** In no state of the run, its end included, does the metadata assign the copy. */
  ghost predicate NeverAssigned(b: Bounds, y: System, events: seq<Event>, c: Copy)
    requires AllowedRun(b, y, events)
    decreases |events|
  {
    !Refers(y.s, y.clock, c) && (events == [] || NeverAssigned(b, Next(b, y, events[0]), events[1..], c))
  }

  ghost predicate NeverRepaired(b: Bounds, y: System, events: seq<Event>, c: Copy)
    requires AllowedRun(b, y, events)
    decreases |events|
  {
    events == [] || (!Repairs(y, events[0], c) && NeverRepaired(b, Next(b, y, events[0]), events[1..], c))
  }

  lemma {:induction false} DoomedUnlessRepaired(b: Bounds, y: System, events: seq<Event>, c: Copy)
    requires Sound(y.s, y.used) && Doomed(b, y, c) && AllowedRun(b, y, events) && b.delay >= 0.0
    ensures NeverAssigned(b, y, events, c) <==> NeverRepaired(b, y, events, c)
    ensures NeverRepaired(b, y, events, c) ==> Doomed(b, End(b, y, events), c)
    decreases |events|
  {
    DoomedIsUnassigned(b, y, c, y.clock);
    if events != [] {
      var y' := Next(b, y, events[0]);
      if Repairs(y, events[0], c) {
        RepairNames(y.s, events[0].op, c.address);
        assert Refers(y'.s, y'.clock, c);
      } else {
        DoomedStep(b, y, events[0], c);
        SoundNext(b, y, events[0]);
        DoomedUnlessRepaired(b, y', events[1..], c);
      }
    }
  }

  /** The exact condition. Take a copy that a cycle may delete, and whatever happens after the
      cycle read the metadata: the copy is assigned at no moment, so that the deletion is
      safe whenever it comes, if and only if no repair of that copy is applied. */
  lemma {:induction false} CollectionIsSafeIffNotRepaired(b: Bounds, y: System, after: seq<Event>, c: Copy)
    requires Inv(b, y) && y.cycle.FlightRead? && b.delay >= 0.0 && b.grace >= b.lease + b.delay
    requires AllowedRun(b, Next(b, y, MetadataRead), after)
    requires Allowed(b, Next(b, y, MetadataRead), Deleted(c))
    ensures var reading := Next(b, y, MetadataRead);
            NeverAssigned(b, reading, after, c) <==> NeverRepaired(b, reading, after, c)
  {
    UnnamedIsDoomed(b, y, c);
    DoomedUnlessRepaired(b, Next(b, y, MetadataRead), after, c);
  }

  // ----- A discipline under which it is met -----

  /** Repairs record only copies in flight, and none starts of a copy that the cycle listed
      before it read the copies in flight. */
  ghost predicate Protected(y: System, e: Event) {
    match e
    case Applied(op) =>
      op.UpdateReplicasOp? ==> forall a :: a in op.replacement ==> a in op.expected || Copy(op.blockId, a) in y.inFlight
    case CopyStarts(c) => y.cycle.FlightRead? || y.cycle.Deleting? ==> c !in y.cycle.listed
    case _ => true
  }

  ghost predicate ProtectedRun(b: Bounds, y: System, events: seq<Event>)
    requires AllowedRun(b, y, events)
    decreases |events|
  {
    events == [] || (Protected(y, events[0]) && ProtectedRun(b, Next(b, y, events[0]), events[1..]))
  }

  lemma {:induction false} ProtectedConcatenation(b: Bounds, y: System, xs: seq<Event>, ys: seq<Event>)
    requires AllowedRun(b, y, xs) && AllowedRun(b, End(b, y, xs), ys)
    requires AllowedRun(b, y, xs + ys) && ProtectedRun(b, y, xs + ys)
    ensures ProtectedRun(b, y, xs) && ProtectedRun(b, End(b, y, xs), ys)
    decreases |xs|
  {
    if xs == [] {
      assert xs + ys == ys;
    } else {
      var y' := Next(b, y, xs[0]);
      ProtectedRest(b, y, xs[0], xs[1..] + ys, xs + ys);
      ProtectedConcatenation(b, y', xs[1..], ys);
      ProtectedCons(b, y, xs[0], xs[1..], y');
      assert xs == [xs[0]] + xs[1..];
    }
  }

  lemma {:induction false} ProtectedRest(b: Bounds, y: System, e: Event, rest: seq<Event>, events: seq<Event>)
    requires events == [e] + rest && AllowedRun(b, y, events) && ProtectedRun(b, y, events)
    ensures Allowed(b, y, e) && Protected(y, e)
    ensures AllowedRun(b, Next(b, y, e), rest) && ProtectedRun(b, Next(b, y, e), rest)
  {
    assert events[0] == e && events[1..] == rest;
  }

  lemma {:induction false} ProtectedCons(b: Bounds, y: System, e: Event, rest: seq<Event>, y': System)
    requires Allowed(b, y, e) && Protected(y, e) && y' == Next(b, y, e)
    requires AllowedRun(b, y', rest) && ProtectedRun(b, y', rest)
    ensures AllowedRun(b, y, [e] + rest) && ProtectedRun(b, y, [e] + rest)
    ensures End(b, y, [e] + rest) == End(b, y', rest)
  {
    assert ([e] + rest)[1..] == rest;
  }

  /** What was listed and is not spared is not in flight. */
  ghost predicate FlightInv(y: System) {
    y.cycle.FlightRead? || y.cycle.Deleting? ==>
      forall c :: c in y.cycle.listed && c !in y.cycle.spared ==> c !in y.inFlight
  }

  lemma {:induction false} FlightStep(b: Bounds, y: System, e: Event)
    requires FlightInv(y) && Allowed(b, y, e) && Protected(y, e)
    ensures FlightInv(Next(b, y, e))
  {
  }

  lemma {:induction false} FlightRun(b: Bounds, y: System, events: seq<Event>)
    requires FlightInv(y) && AllowedRun(b, y, events) && ProtectedRun(b, y, events)
    ensures FlightInv(End(b, y, events))
    decreases |events|
  {
    if events != [] {
      FlightStep(b, y, events[0]);
      FlightRun(b, Next(b, y, events[0]), events[1..]);
    }
  }

  lemma {:induction false} ProtectedIsNoRepair(b: Bounds, y: System, e: Event, c: Copy)
    requires Doomed(b, y, c) && c !in y.inFlight && Protected(y, e)
    ensures !Repairs(y, e, c)
  {
    if Repairs(y, e, c) && c.address in e.op.expected {
      ExpectedIsNamed(y.s, e.op, c.address);
    }
  }

  predicate SameCycle(e: Event) {
    !e.CycleStarts? && !e.MetadataRead?
  }

  /** Under the discipline no copy that the cycle may delete is ever repaired. */
  lemma {:induction false} ProtectedIsNeverRepaired(b: Bounds, y: System, after: seq<Event>, c: Copy)
    requires Sound(y.s, y.used) && Doomed(b, y, c) && AllowedRun(b, y, after) && ProtectedRun(b, y, after)
    requires y.cycle.Deleting? && c in y.cycle.listed && c !in y.inFlight
    requires forall i :: 0 <= i < |after| ==> SameCycle(after[i])
    ensures NeverRepaired(b, y, after, c)
    decreases |after|
  {
    if after != [] {
      assert SameCycle(after[0]);
      ProtectedIsNoRepair(b, y, after[0], c);
      DoomedStep(b, y, after[0], c);
      SoundNext(b, y, after[0]);
      ProtectedIsNeverRepaired(b, Next(b, y, after[0]), after[1..], c);
    }
  }

  lemma {:induction false} LastEvent(b: Bounds, y: System, init: seq<Event>, last: Event)
    requires AllowedRun(b, y, init + [last])
    ensures AllowedRun(b, y, init) && Allowed(b, End(b, y, init), last)
    ensures End(b, y, init + [last]) == Next(b, End(b, y, init), last)
  {
    RunConcatenation(b, y, init, [last]);
    RunOfOne(b, End(b, y, init), last);
  }

  lemma {:induction false} RunOfOne(b: Bounds, y: System, e: Event)
    ensures AllowedRun(b, y, [e]) <==> Allowed(b, y, e)
    ensures Allowed(b, y, e) ==> End(b, y, [e]) == Next(b, y, e)
  {
    assert [e][1..] == [];
  }

  /** Where the cycle that is deleting at the end of a run read the metadata. */
  lemma {:induction false} LastReading(b: Bounds, y: System, events: seq<Event>)
    returns (before: seq<Event>, after: seq<Event>)
    requires AllowedRun(b, y, events) && !y.cycle.Deleting? && End(b, y, events).cycle.Deleting?
    ensures events == before + ([MetadataRead] + after)
    ensures AllowedRun(b, y, before) && Allowed(b, End(b, y, before), MetadataRead)
    ensures Next(b, End(b, y, before), MetadataRead).cycle == End(b, y, events).cycle
    ensures forall i :: 0 <= i < |after| ==> SameCycle(after[i])
    decreases |events|
  {
    var init, last := events[..|events| - 1], events[|events| - 1];
    assert events == init + [last];
    LastEvent(b, y, init, last);
    if last.MetadataRead? {
      before, after := init, [];
    } else {
      before, after := LastReading(b, y, init);
      after := after + [last];
    }
  }

  /** Safety over every disciplined interleaving: at the moment a copy is deleted, the
      metadata does not assign it, whatever the leader's clock then says. */
  lemma {:induction false} NothingAssignedIsDeleted(b: Bounds, y: System, events: seq<Event>, c: Copy, now: real)
    requires Inv(b, y) && y.cycle.Idle? && AllowedRun(b, y, events) && ProtectedRun(b, y, events)
    requires b.delay >= 0.0 && b.grace >= b.lease + b.delay
    requires Allowed(b, End(b, y, events), Deleted(c)) && now >= End(b, y, events).clock
    ensures !Assigned(End(b, y, events).s, now, c.id, c.address)
  {
    var before, after := LastReading(b, y, events);
    RunConcatenation(b, y, before, [MetadataRead] + after);
    ProtectedConcatenation(b, y, before, [MetadataRead] + after);
    assert ([MetadataRead] + after)[1..] == after;
    InvRun(b, y, before);
    FlightRun(b, y, before);
    var reading := Next(b, End(b, y, before), MetadataRead);
    UnnamedIsDoomed(b, End(b, y, before), c);
    EventKeepsInv(b, End(b, y, before), MetadataRead);
    ProtectedIsNeverRepaired(b, reading, after, c);
    DoomedUnlessRepaired(b, reading, after, c);
    DoomedIsUnassigned(b, End(b, reading, after), c, now);
  }

  /** Runs may start from the empty cluster. */
  lemma {:induction false} EmptySystemStarts(b: Bounds, now: real)
    ensures Inv(b, System(INITIAL, {}, now, map[], {}, Idle))
  {
    InitialIsSound();
  }

  // ----- The cycle itself -----

  /** What the nodes answered: for each address, its blocks with their ages. */
  type Inventory = seq<(string, seq<(string, real)>)>

  ghost predicate ListedAt(stored: Inventory, i: nat, j: nat, c: Copy, age: real) {
    i < |stored| && j < |stored[i].1| && stored[i].0 == c.address && stored[i].1[j] == (c.id, age)
  }

  /** Some listing of the copy, among the first `count` nodes, lets it be deleted. */
  ghost predicate Condemned(stored: Inventory, count: nat, inFlight: set<Copy>, referenced: References, grace: real,
        c: Copy) {
    && c !in inFlight && !Maps(referenced, c.id, c.address)
    && exists i: nat, j: nat, age :: i < count && ListedAt(stored, i, j, c, age) && age >= grace
  }

  /** The loop's test is exactly the one the safety theorem is about: what it condemns may be
      deleted, and every copy that may be deleted is condemned. */
  lemma {:induction false} CondemnedIsDeletable(stored: Inventory, inFlight: set<Copy>, referenced: References,
        grace: real, c: Copy, listed: map<Copy, real>, refs: iset<Copy>)
    requires forall i: nat, j: nat, other, age :: ListedAt(stored, i, j, other, age) ==>
      other in listed && listed[other] == age
    requires forall other :: other in listed ==> exists i: nat, j: nat :: ListedAt(stored, i, j, other, listed[other])
    requires forall id, a :: (id in referenced && a in referenced[id]) <==> Copy(id, a) in refs
    ensures Condemned(stored, |stored|, inFlight, referenced, grace, c)
            <==> Deletable(listed, inFlight, refs, grace, c)
  {
    assert Maps(referenced, c.id, c.address) <==> Copy(c.id, c.address) in refs;
    if Condemned(stored, |stored|, inFlight, referenced, grace, c) {
      var i: nat, j: nat, age :| i < |stored| && ListedAt(stored, i, j, c, age) && age >= grace;
    }
    if Deletable(listed, inFlight, refs, grace, c) {
      var i: nat, j: nat :| ListedAt(stored, i, j, c, listed[c]);
    }
  }

  lemma {:induction false} CondemnedAreListed(stored: Inventory, inFlight: set<Copy>, referenced: References,
        grace: real, asked: seq<Copy>)
    requires forall c :: c in asked ==> Condemned(stored, |stored|, inFlight, referenced, grace, c)
    ensures forall c :: c in asked ==> c !in inFlight && !(c.id in referenced && c.address in referenced[c.id])
    ensures forall c :: c in asked ==>
              exists i, j {:trigger stored[i].1[j]} :: 0 <= i < |stored| && 0 <= j < |stored[i].1|
                && stored[i].0 == c.address && stored[i].1[j].0 == c.id && stored[i].1[j].1 >= grace
  {
    forall c | c in asked
      ensures exists i, j {:trigger stored[i].1[j]} :: 0 <= i < |stored| && 0 <= j < |stored[i].1|
                && stored[i].0 == c.address && stored[i].1[j].0 == c.id && stored[i].1[j].1 >= grace
    {
      var i: nat, j: nat, age :| i < |stored| && ListedAt(stored, i, j, c, age) && age >= grace;
      assert stored[i].1[j].0 == c.id;
    }
  }

  class GarbageCollector {
    const grace: real
    var deleted: seq<Copy>

    constructor (grace: real)
      requires grace >= 0.0
      ensures this.grace == grace && deleted == []
    {
      this.grace, deleted := grace, [];
    }

    /** The part of `run_cycle` after its readings: every listed copy that is neither named
        nor in flight and is old enough is asked to be deleted, and no other; `deleted`
        records those whose node agreed. Losing the leadership stops the cycle. */
    method DeleteUnreferenced(stored: Inventory, inFlight: set<Copy>, referenced: References, leader: seq<bool>,
                              agreed: set<Copy>) returns (asked: seq<Copy>, finished: bool)
      modifies this
      ensures forall c :: c in asked ==> Condemned(stored, |stored|, inFlight, referenced, grace, c)
      ensures finished ==> forall c :: Condemned(stored, |stored|, inFlight, referenced, grace, c) ==> c in asked
      ensures forall c :: c in asked ==> c !in inFlight && !(c.id in referenced && c.address in referenced[c.id])
      ensures forall c :: c in asked ==>
                exists i, j {:trigger stored[i].1[j]} :: 0 <= i < |stored| && 0 <= j < |stored[i].1|
                  && stored[i].0 == c.address && stored[i].1[j].0 == c.id && stored[i].1[j].1 >= grace
      ensures finished ==>
                forall i, j {:trigger stored[i].1[j]} :: 0 <= i < |stored| && 0 <= j < |stored[i].1| ==>
                  var id, age, address := stored[i].1[j].0, stored[i].1[j].1, stored[i].0;
                  (age >= grace && Copy(id, address) !in inFlight
                   && !(id in referenced && address in referenced[id]) ==>
                     Copy(id, address) in asked)
      ensures !finished ==> |asked| >= |leader| || !leader[|asked|]
      ensures forall c :: c in deleted <==> c in asked && c in agreed
    {
      deleted, asked, finished := [], [], false;
      for i := 0 to |stored|
        invariant forall c :: c in deleted <==> c in asked && c in agreed
        invariant forall c :: c in asked ==> Condemned(stored, |stored|, inFlight, referenced, grace, c)
        invariant forall c :: Condemned(stored, i, inFlight, referenced, grace, c) ==> c in asked
      {
        var address, blocks := stored[i].0, stored[i].1;
        for j := 0 to |blocks|
          invariant forall c :: c in deleted <==> c in asked && c in agreed
          invariant forall c :: c in asked ==> Condemned(stored, |stored|, inFlight, referenced, grace, c)
          invariant forall c :: Condemned(stored, i, inFlight, referenced, grace, c) ==> c in asked
          invariant forall k :: 0 <= k < j ==> Handled(blocks[k], address, inFlight, referenced, asked)
        {
          var blockId, age := blocks[j].0, blocks[j].1;
          var c := Copy(blockId, address);
          if (blockId in referenced && address in referenced[blockId]) || c in inFlight {
            continue;
          }
          if age < grace {
            continue;
          }
          if |asked| >= |leader| || !leader[|asked|] {
            CondemnedAreListed(stored, inFlight, referenced, grace, asked);
            return;
          }
          assert ListedAt(stored, i, j, c, age);
          asked := asked + [c];
          if c in agreed {
            deleted := deleted + [c];
          }
        }
        forall c | Condemned(stored, i + 1, inFlight, referenced, grace, c) ensures c in asked {
          var k: nat, j: nat, age :| k < i + 1 && ListedAt(stored, k, j, c, age) && age >= grace;
          if k == i {
            assert Handled(blocks[j], address, inFlight, referenced, asked);
          } else {
            assert Condemned(stored, i, inFlight, referenced, grace, c);
          }
        }
      }
      finished := true;
      CondemnedAreListed(stored, inFlight, referenced, grace, asked);
      forall i, j {:trigger stored[i].1[j]} | 0 <= i < |stored| && 0 <= j < |stored[i].1|
        ensures var c, age := Copy(stored[i].1[j].0, stored[i].0), stored[i].1[j].1;
                (age >= grace && c !in inFlight && !(c.id in referenced && c.address in referenced[c.id]) ==>
                 c in asked)
      {
        assert ListedAt(stored, i, j, Copy(stored[i].1[j].0, stored[i].0), stored[i].1[j].1);
      }
    }

    ghost predicate Handled(block: (string, real), address: string, inFlight: set<Copy>, referenced: References,
          asked: seq<Copy>) {
      var c := Copy(block.0, address);
      block.1 >= grace && c !in inFlight && !Maps(referenced, c.id, c.address) ==> c in asked
    }
  }
}
