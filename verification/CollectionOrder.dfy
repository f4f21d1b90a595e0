/** Concrete runs of the collector: why its readings come in the order they do, and the two
    ways in which a repair breaks the condition under which its deletions are safe. */
module CollectionOrder {
  import opened Common
  import opened Paths
  import opened Tree
  import opened Mutations
  import opened Effects
  import opened History
  import opened Conservation
  import opened Walks
  import opened Handlers
  import opened Copies
  import opened Collector

  const F: Path := ["f"]
  const HOME: Copy := Copy("b1", "n1")
  const MOVED: Copy := Copy("b1", "n2")
  const UPLOAD: Op := BeginUploadOp("/f", [Placement("b1", ["n1"])], 0.0, 60.0, 4, None)
  const REPAIR: Op := UpdateReplicasOp("/f", "b1", ["n1"], ["n1", "n2"])

  ghost function Refs(y: System): iset<Copy> {
    iset c: Copy | Refers(y.s, y.clock, c)
  }

  /** Metadata before inventory: a block uploaded between the two readings, old enough when
      its node is listed, would be deleted from under a pending upload. */
  lemma {:induction false} MetadataBeforeInventoryIsUnsafe(b: Bounds)
    requires b.delay >= 0.0 && b.grace >= 0.0
    ensures var y := System(INITIAL, {}, 0.0, map[], {}, Idle);
            var between := [Applied(UPLOAD), Stored({HOME}), Tick(b.grace)];
            && AllowedRun(b, y, between)
            && var end := End(b, y, between);
               && Deletable(Ages(end, "n1"), end.inFlight, Refs(y), b.grace, HOME)
               && Refers(end.s, end.clock, HOME)
  {
    var y := System(INITIAL, {}, 0.0, map[], {}, Idle);
    UploadApplies();
    var y1 := Next(b, y, Applied(UPLOAD));
    StoredAndOld(b, y1);
    var y2 := Next(b, y1, Stored({HOME}));
    RunOfOne(b, y, Applied(UPLOAD));
    Then(b, y, [Applied(UPLOAD)], Stored({HOME}), y2);
    Then(b, y, [Applied(UPLOAD)] + [Stored({HOME})], Tick(b.grace), Next(b, y2, Tick(b.grace)));
    assert [Applied(UPLOAD)] + [Stored({HOME})] + [Tick(b.grace)] == [Applied(UPLOAD), Stored({HOME}), Tick(b.grace)];
    NothingNamed();
  }

  lemma {:induction false} UploadApplies()
    ensures FreshOp({}, UPLOAD) && Learn({}, UPLOAD) == {"b1"}
    ensures NamedAt(Step(INITIAL, UPLOAD).0.root, F, 0, "b1", "n1")
  {
    FIsAPath();
    UploadOfF(INITIAL, "b1", 0.0);
    assert NewIds(UPLOAD) == ["b1"];
  }

  lemma {:induction false} NothingNamed()
    ensures !Refers(INITIAL, 0.0, HOME)
  {
    forall path, i ensures !NamedAt(INITIAL.root, path, i, "b1", "n1") {
      assert Lookup(INITIAL.root, path).Some? ==> path == [];
    }
  }

  /** A copy stored now is old enough once the grace has passed. */
  lemma {:induction false} StoredAndOld(b: Bounds, y: System)
    requires b.grace >= 0.0 && y.clock == 0.0 && y.copies == map[] && "b1" in y.used
    ensures Allowed(b, y, Stored({HOME})) && Allowed(b, Next(b, y, Stored({HOME})), Tick(b.grace))
    ensures var end := Next(b, Next(b, y, Stored({HOME})), Tick(b.grace));
            Ages(end, "n1") == map[HOME := b.grace]
  {
  }

  /** A run of one event more. */
  lemma {:induction false} Then(b: Bounds, y: System, events: seq<Event>, e: Event, y': System)
    requires AllowedRun(b, y, events) && Allowed(b, End(b, y, events), e) && y' == Next(b, End(b, y, events), e)
    ensures AllowedRun(b, y, events + [e]) && End(b, y, events + [e]) == y'
  {
    RunConcatenation(b, y, events, [e]);
    RunOfOne(b, End(b, y, events), e);
  }

  function CommittedF(): State {
    INITIAL.(root := Put(INITIAL.root, F, FileNode(FileRecord(
      true, [BlockRecord("b1", ["n1"], "", 4, true)], 0.0, 0, 4, Attributes(DEFAULT_OWNER, DEFAULT_OWNER, FILE_MODE)))))
  }

  /** A committed file with one block on `n1`, and an old copy of the block on `n2`. */
  ghost function Repairing(b: Bounds, inFlight: set<Copy>): System {
    System(CommittedF(), {"b1"}, 0.0, map[MOVED := -b.grace], inFlight, Idle)
  }

  lemma {:induction false} FilesOfCommittedF(path: Path)
    ensures FileAt(CommittedF().root, path).Some? <==> path == F
    ensures FileAt(CommittedF().root, F).Some?
    ensures FileAt(CommittedF().root, F).value.blocks == [BlockRecord("b1", ["n1"], "", 4, true)]
  {
    var file := CommittedF().root.children["f"].file;
    assert Lookup(INITIAL.root, path).Some? ==> path == [];
    assert Lookup(INITIAL.root, F) == None;
    FilesAfterPutFile(INITIAL.root, F, file, path);
    FilesAfterPutFile(INITIAL.root, F, file, F);
  }

  lemma {:induction false} RepairingIsReal(b: Bounds, inFlight: set<Copy>)
    requires b.lease >= 0.0
    ensures Inv(b, Repairing(b, inFlight)) && !Refers(CommittedF(), 0.0, MOVED)
  {
    var s := CommittedF();
    forall a ensures IdAt(s, a) == if a == InFile(F, 0) then Some("b1") else None {
      if a.InFile? {
        FilesOfCommittedF(a.path);
      }
    }
    forall path, i ensures !NamedAt(s.root, path, i, "b1", "n2") {
      FilesOfCommittedF(path);
    }
  }

  lemma {:induction false} RepairApplies()
    ensures FreshOp({"b1"}, REPAIR) && NamedAt(Step(CommittedF(), REPAIR).0.root, F, 0, "b1", "n2")
  {
    FIsAPath();
    FilesOfCommittedF(F);
    StepFiles(CommittedF(), REPAIR, F);
    assert CommittedFile(CommittedF().root, F).Ok?;
  }

  /** Metadata before the copies in flight: a repair committed between the two readings is
      in neither of them. */
  lemma {:induction false} MetadataBeforeFlightIsUnsafe(b: Bounds)
    requires b.lease >= 0.0
    ensures var y := Repairing(b, {MOVED});
            var between := [Applied(REPAIR), CopyEnds(MOVED)];
            && Inv(b, y) && AllowedRun(b, y, between)
            && var end := End(b, y, between);
               && Deletable(Ages(y, "n2"), end.inFlight, Refs(y), b.grace, MOVED)
               && Refers(end.s, end.clock, MOVED)
  {
    var y := Repairing(b, {MOVED});
    RepairingIsReal(b, {MOVED});
    RepairApplies();
    RunOfOne(b, y, Applied(REPAIR));
    Then(b, y, [Applied(REPAIR)], CopyEnds(MOVED), Next(b, Next(b, y, Applied(REPAIR)), CopyEnds(MOVED)));
    assert [Applied(REPAIR)] + [CopyEnds(MOVED)] == [Applied(REPAIR), CopyEnds(MOVED)];
  }

  /** A whole cycle up to its last reading, of one node, while `events` happen before the
      copies in flight are read. */
  function Readings(before: seq<Event>): seq<Event> {
    [CycleStarts, NodeListed("n2")] + before + [InFlightRead, MetadataRead]
  }

  lemma {:induction false} ReadingsRun(b: Bounds, inFlight: set<Copy>)
    requires b.lease >= 0.0
    ensures var y := Repairing(b, inFlight);
            && AllowedRun(b, y, Readings([]))
            && End(b, y, Readings([])) == y.(cycle := Deleting(Ages(y, "n2"), inFlight, Refs(y)))
  {
    var y := Repairing(b, inFlight);
    var y2 := y.(cycle := Listing(Ages(y, "n2")));
    assert map[] + Ages(y, "n2") == Ages(y, "n2");
    RunOfOne(b, y, CycleStarts);
    Then(b, y, [CycleStarts], NodeListed("n2"), y2);
    Then(b, y, [CycleStarts] + [NodeListed("n2")], InFlightRead, y2.(cycle := FlightRead(y2.cycle.listed, inFlight)));
    Then(b, y, [CycleStarts] + [NodeListed("n2")] + [InFlightRead], MetadataRead,
         y.(cycle := Deleting(Ages(y, "n2"), inFlight, Refs(y))));
    assert [CycleStarts] + [NodeListed("n2")] + [InFlightRead] + [MetadataRead] == Readings([]);
  }

  lemma {:induction false} ReadingsAfterLeaving(b: Bounds)
    requires b.lease >= 0.0
    ensures var y := Repairing(b, {MOVED});
            && AllowedRun(b, y, Readings([CopyEnds(MOVED)]))
            && End(b, y, Readings([CopyEnds(MOVED)]))
                == y.(inFlight := {}, cycle := Deleting(Ages(y, "n2"), {}, Refs(y)))
  {
    var y := Repairing(b, {MOVED});
    var y2 := y.(cycle := Listing(Ages(y, "n2")));
    assert map[] + Ages(y, "n2") == Ages(y, "n2");
    RunOfOne(b, y, CycleStarts);
    Then(b, y, [CycleStarts], NodeListed("n2"), y2);
    Then(b, y, [CycleStarts] + [NodeListed("n2")], CopyEnds(MOVED), y2.(inFlight := {}));
    Then(b, y, [CycleStarts] + [NodeListed("n2")] + [CopyEnds(MOVED)], InFlightRead,
         y2.(inFlight := {}, cycle := FlightRead(y2.cycle.listed, {})));
    Then(b, y, [CycleStarts] + [NodeListed("n2")] + [CopyEnds(MOVED)] + [InFlightRead], MetadataRead,
         y.(inFlight := {}, cycle := Deleting(Ages(y, "n2"), {}, Refs(y))));
    assert [CycleStarts] + [NodeListed("n2")] + [CopyEnds(MOVED)] + [InFlightRead] + [MetadataRead]
           == Readings([CopyEnds(MOVED)]);
  }

  lemma {:induction false} RepairAfterReadings(b: Bounds, y: System)
    requires y.s == CommittedF() && y.used == {"b1"} && y.clock == 0.0
    requires y.cycle == Deleting(map[MOVED := b.grace], {}, Refs(y)) && !Refers(CommittedF(), 0.0, MOVED)
    ensures Allowed(b, y, Applied(REPAIR)) && Repairs(y, Applied(REPAIR), MOVED)
    ensures var end := Next(b, y, Applied(REPAIR));
            Refers(end.s, end.clock, MOVED) && Allowed(b, end, Deleted(MOVED))
  {
    RepairApplies();
  }

  /** A run of the machine, with the readings in the right order, that breaks the condition:
      the repair starts and is recorded after them, onto a node that already held a copy. The
      cycle may then delete a replica that the metadata assigns. */
  lemma {:induction false} LateRepairIsUnprotected(b: Bounds)
    requires b.lease >= 0.0
    ensures var y := Repairing(b, {});
            var events := Readings([]) + [CopyStarts(MOVED)] + [Applied(REPAIR)];
            && Inv(b, y) && AllowedRun(b, y, events)
            && Allowed(b, End(b, y, events), Deleted(MOVED))
            && Refers(End(b, y, events).s, End(b, y, events).clock, MOVED)
  {
    var y := Repairing(b, {});
    RepairingIsReal(b, {});
    ReadingsRun(b, {});
    var y1 := End(b, y, Readings([]));
    var y2 := y1.(inFlight := {MOVED});
    Then(b, y, Readings([]), CopyStarts(MOVED), y2);
    RepairAfterReadings(b, y2);
    Then(b, y, Readings([]) + [CopyStarts(MOVED)], Applied(REPAIR), Next(b, y2, Applied(REPAIR)));
  }

  /** Another: the repair left the in-flight set with its commit unresolved, before the
      readings, and the commit is applied after them. */
  lemma {:induction false} UnresolvedRepairIsUnprotected(b: Bounds)
    requires b.lease >= 0.0
    ensures var y := Repairing(b, {MOVED});
            var events := Readings([CopyEnds(MOVED)]) + [Applied(REPAIR)];
            && Inv(b, y) && AllowedRun(b, y, events)
            && Allowed(b, End(b, y, events), Deleted(MOVED))
            && Refers(End(b, y, events).s, End(b, y, events).clock, MOVED)
  {
    var y := Repairing(b, {MOVED});
    RepairingIsReal(b, {MOVED});
    ReadingsAfterLeaving(b);
    var y1 := End(b, y, Readings([CopyEnds(MOVED)]));
    RepairAfterReadings(b, y1);
    Then(b, y, Readings([CopyEnds(MOVED)]), Applied(REPAIR), Next(b, y1, Applied(REPAIR)));
  }
}
