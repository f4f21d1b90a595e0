/** Which copies are where the metadata says. A named copy is missing exactly when its node
    lost it, or the collector deleted it and a repair of it was applied after that cycle read
    the metadata; under a discipline of repairs only nodes lose copies. */
module Presence {
  import opened Common
  import opened Paths
  import opened Conservation
  import opened Copies
  import opened Cluster
  import G = Collector
  import P = WriteProtocol

  /** What the collector deletes, or deleted, cannot be named unless a repair of it was applied
      after its cycle read the metadata. */
  ghost predicate CondemnedOk(b: G.Bounds, x: System) {
    && (x.y.cycle.Deleting? ==>
          forall c :: G.Deletable(x.y.cycle.listed, x.y.cycle.spared, x.y.cycle.refs, b.grace, c) ==>
            G.Doomed(b, x.y, c) || c in x.rescued)
    && forall c :: c in x.swept ==> G.Doomed(b, x.y, c) || c in x.rescued
  }

  lemma {:induction false} DoomedOrRescued(b: G.Bounds, x: System, e: Event, c: Copy)
    requires G.Inv(b, x.y) && Allowed(b, x, e) && (G.Doomed(b, x.y, c) || c in x.rescued)
    requires e.Collect? && e.event.MetadataRead? ==> G.Doomed(b, x.y, c) || c in x.swept
    ensures G.Doomed(b, G.Next(b, x.y, ForCollector(b, x, e)), c) || c in RescuedAfter(x, e)
  {
    if G.Doomed(b, x.y, c) {
      if G.Repairs(x.y, ForCollector(b, x, e), c) {
        assert c == Copy(e.op.blockId, c.address) && c in RepairedBy(x.y.s, e);
      } else {
        G.DoomedStep(b, x.y, ForCollector(b, x, e), c);
      }
    }
  }

  lemma {:induction false} DeletableBefore(b: G.Bounds, x: System, e: Event, c: Copy)
    requires G.Inv(b, x.y) && Allowed(b, x, e) && CondemnedOk(b, x) && b.grace >= b.lease + b.delay
    requires var y' := G.Next(b, x.y, ForCollector(b, x, e));
             y'.cycle.Deleting? && G.Deletable(y'.cycle.listed, y'.cycle.spared, y'.cycle.refs, b.grace, c)
    ensures G.Doomed(b, x.y, c) || (c in x.rescued && !(e.Collect? && e.event.MetadataRead?))
  {
    if e.Collect? && e.event.MetadataRead? {
      G.UnnamedIsDoomed(b, x.y, c);
    }
  }

  lemma {:induction false} EventKeepsCondemned(b: G.Bounds, x: System, e: Event)
    requires G.Inv(b, x.y) && Allowed(b, x, e) && CondemnedOk(b, x) && b.grace >= b.lease + b.delay
    ensures CondemnedOk(b, Next(b, x, e))
  {
    var x' := Next(b, x, e);
    if x'.y.cycle.Deleting? {
      forall c | G.Deletable(x'.y.cycle.listed, x'.y.cycle.spared, x'.y.cycle.refs, b.grace, c)
        ensures G.Doomed(b, x'.y, c) || c in x'.rescued
      {
        DeletableBefore(b, x, e, c);
        DoomedOrRescued(b, x, e, c);
      }
    }
    forall c | c in x'.swept ensures G.Doomed(b, x'.y, c) || c in x'.rescued {
      DoomedOrRescued(b, x, e, c);
    }
  }

  lemma {:induction false} CondemnedRun(b: G.Bounds, x: System, events: seq<Event>, p: Path, content: seq<Byte>)
    requires Inv(b, x, p, content) && AllowedRun(b, x, events, p)
    requires CondemnedOk(b, x) && b.grace >= b.lease + b.delay
    ensures CondemnedOk(b, End(b, x, events, p))
    decreases |events|
  {
    if events != [] {
      EventKeepsCondemned(b, x, events[0]);
      EventKeepsInv(b, x, events[0], p, content);
      CondemnedRun(b, Next(b, x, events[0]), events[1..], p, ContentAfter(b, x, events[0], p, content));
    }
  }

  /** Which named copies are missing: exactly those that their node lost, and those that the
      collector deleted although a repair of them was applied after its cycle read the
      metadata. Nothing else is, in any run. */
  lemma {:induction false} MissingCopiesAreLostOrRescued(b: G.Bounds, x: System, events: seq<Event>, p: Path,
        content: seq<Byte>, c: Copy)
    requires Inv(b, x, p, content) && AllowedRun(b, x, events, p)
    requires CondemnedOk(b, x) && b.grace >= b.lease + b.delay
    requires NamedIn(End(b, x, events, p).y.s, p, c.id, c.address)
    ensures var end := End(b, x, events, p);
            c !in end.bytes <==> c in end.lost || (c in end.swept && c in end.rescued)
  {
    InvRun(b, x, events, p, content);
    CondemnedRun(b, x, events, p, content);
    var end := End(b, x, events, p);
    assert Needed(View(b, end), p, c);
    if c in end.swept && c !in end.rescued {
      DoomedIsNotNeeded(b, end, p, c);
    }
  }

  /** What is doomed is no copy that the file needs. */
  lemma {:induction false} DoomedIsNotNeeded(b: G.Bounds, x: System, p: Path, c: Copy)
    requires G.Doomed(b, x.y, c)
    ensures !Needed(View(b, x), p, c)
  {
    var w := View(b, x);
    if writeId, k: nat :| Written(w, p, writeId, k, c) {
      assert SlotNames(w.s.writes[writeId], c.id);
    }
  }

  // ----- A discipline under which only nodes lose copies -----

  /** The collector's discipline, and a repair records copies made since they entered the
      in-flight set, in which they still are. */
  ghost predicate Disciplined(b: G.Bounds, x: System, e: Event) {
    && G.Protected(x.y, ForCollector(b, x, e))
    && (e.Command? && e.op.UpdateReplicasOp? ==>
          forall a :: a in e.op.replacement ==> a in e.op.expected || Copy(e.op.blockId, a) in x.pending)
  }

  ghost predicate PendingOk(pending: set<Copy>, y: G.System, held: set<Copy>) {
    MadeOk(pending, y, held) && pending <= y.inFlight
  }

  /** What the collector deletes, or deleted, is out of reach for good. */
  ghost predicate DisciplineOk(b: G.Bounds, x: System) {
    && G.FlightInv(x.y) && PendingOk(x.pending, x.y, x.bytes.Keys + x.lost)
    && (x.y.cycle.Deleting? ==>
          forall c :: G.Deletable(x.y.cycle.listed, x.y.cycle.spared, x.y.cycle.refs, b.grace, c) ==>
            G.Doomed(b, x.y, c))
    && forall c :: c in x.swept ==> G.Doomed(b, x.y, c)
  }

  lemma {:induction false} SweptIsNotRepaired(b: G.Bounds, x: System, e: Event, c: Copy)
    requires Apart(x) && Allowed(b, x, e) && DisciplineOk(b, x) && Disciplined(b, x, e) && c in x.swept
    ensures !G.Repairs(x.y, ForCollector(b, x, e), c)
  {
    if G.Repairs(x.y, ForCollector(b, x, e), c) {
      if c.address in e.op.expected {
        ExpectedIsNamed(x.y.s, e.op, c.address);
      } else {
        RecordedIsReferenced(x.y.s, e.op, c);
        RecordsPending(b, x, e, c);
      }
    }
  }

  lemma {:induction false} RecordsPending(b: G.Bounds, x: System, e: Event, c: Copy)
    requires Disciplined(b, x, e) && e.Command? && RecordsCopy(x.y.s, e.op, c)
    ensures c in x.pending
  {
    assert c == Copy(e.op.blockId, c.address);
  }

  lemma {:induction false} DeletableUnderDiscipline(b: G.Bounds, x: System, e: Event, c: Copy)
    requires G.Inv(b, x.y) && Allowed(b, x, e) && DisciplineOk(b, x) && Disciplined(b, x, e)
    requires b.grace >= b.lease + b.delay
    requires var y' := G.Next(b, x.y, ForCollector(b, x, e));
             y'.cycle.Deleting? && G.Deletable(y'.cycle.listed, y'.cycle.spared, y'.cycle.refs, b.grace, c)
    ensures G.Doomed(b, G.Next(b, x.y, ForCollector(b, x, e)), c)
  {
    if e.Collect? && e.event.MetadataRead? {
      G.UnnamedIsDoomed(b, x.y, c);
    } else {
      G.ProtectedIsNoRepair(b, x.y, ForCollector(b, x, e), c);
    }
    G.DoomedStep(b, x.y, ForCollector(b, x, e), c);
  }

  lemma {:induction false} SweptUnderDiscipline(b: G.Bounds, x: System, e: Event, c: Copy)
    requires G.Inv(b, x.y) && Apart(x) && Allowed(b, x, e) && DisciplineOk(b, x) && Disciplined(b, x, e)
    requires c in SweptAfter(b, x, e)
    ensures G.Doomed(b, G.Next(b, x.y, ForCollector(b, x, e)), c)
  {
    if c in x.swept {
      SweptIsNotRepaired(b, x, e, c);
    }
    G.DoomedStep(b, x.y, ForCollector(b, x, e), c);
  }

  lemma {:induction false} PendingUnderDiscipline(b: G.Bounds, x: System, e: Event)
    requires G.Inv(b, x.y) && x.bytes.Keys == x.y.copies.Keys && Allowed(b, x, e)
    requires G.FlightInv(x.y) && PendingOk(x.pending, x.y, x.bytes.Keys + x.lost)
    ensures PendingOk(PendingAfter(x, e), G.Next(b, x.y, ForCollector(b, x, e)), PlacedAfter(b, x, e))
  {
    var y', held := G.Next(b, x.y, ForCollector(b, x, e)), x.bytes.Keys + x.lost;
    HeldOrLostChanges(b, x, e);
    if e.Command? || e.Begin? || e.Commit? {
      CommandKeepsMade(x.y, y', e.op, x.pending, held);
    } else if e.Collect? {
      CollectingKeepsPending(b, x.y, e.event, x.pending, held, PlacedAfter(b, x, e));
    } else {
      StoringKeepsPending(b, x, e);
    }
  }

  lemma {:induction false} StoringKeepsPending(b: G.Bounds, x: System, e: Event)
    requires Allowed(b, x, e) && !e.Command? && !e.Begin? && !e.Commit? && !e.Collect?
    requires PendingOk(x.pending, x.y, x.bytes.Keys + x.lost)
    ensures PendingOk(PendingAfter(x, e), G.Next(b, x.y, ForCollector(b, x, e)), PlacedAfter(b, x, e))
  {
    HeldOrLostChanges(b, x, e);
    MoreMade(x.y, G.Next(b, x.y, ForCollector(b, x, e)), x.pending, if e.Replicate? then {e.copy} else {},
             x.bytes.Keys + x.lost, PlacedAfter(b, x, e));
  }

  /** The copies that are there, or lost. */
  ghost function PlacedAfter(b: G.Bounds, x: System, e: Event): set<Copy> {
    (x.bytes - Gone(e) + Stores(b, x, e)).Keys + LostAfter(b, x, e)
  }

  lemma {:induction false} HeldOrLostChanges(b: G.Bounds, x: System, e: Event)
    ensures var held, held' := x.bytes.Keys + x.lost, PlacedAfter(b, x, e);
            && (!e.Collect? ==> held' == held + Stores(b, x, e).Keys)
            && (e.Command? || e.Begin? || e.Commit? ==> held' == held)
            && (e.Collect? ==> forall c :: c in held && c !in held' ==>
                  (e.event.Deleted? && c == e.event.copy) || !Referenced(x.y.s, c.id))
  {
  }

  lemma {:induction false} CollectingKeepsPending(b: G.Bounds, y: G.System, e: G.Event, pending: set<Copy>,
        held: set<Copy>, held': set<Copy>)
    requires G.FlightInv(y) && G.Allowed(b, y, e) && !e.Applied? && PendingOk(pending, y, held)
    requires forall c :: c in held && c !in held' ==> (e.Deleted? && c == e.copy) || !Referenced(y.s, c.id)
    ensures PendingOk(if e.CopyEnds? then pending - {e.copy} else pending, G.Next(b, y, e), held')
  {
  }

  lemma {:induction false} EventKeepsDiscipline(b: G.Bounds, x: System, e: Event)
    requires SystemOk(b, x) && Allowed(b, x, e) && DisciplineOk(b, x) && Disciplined(b, x, e)
    requires b.grace >= b.lease + b.delay
    ensures DisciplineOk(b, Next(b, x, e))
  {
    var x' := Next(b, x, e);
    G.FlightStep(b, x.y, ForCollector(b, x, e));
    PendingUnderDiscipline(b, x, e);
    if x'.y.cycle.Deleting? {
      forall c | G.Deletable(x'.y.cycle.listed, x'.y.cycle.spared, x'.y.cycle.refs, b.grace, c)
        ensures G.Doomed(b, x'.y, c)
      {
        DeletableUnderDiscipline(b, x, e, c);
      }
    }
    forall c | c in x'.swept ensures G.Doomed(b, x'.y, c) {
      SweptUnderDiscipline(b, x, e, c);
    }
  }

  ghost predicate DisciplinedRun(b: G.Bounds, x: System, events: seq<Event>, p: Path)
    requires AllowedRun(b, x, events, p)
    decreases |events|
  {
    events == [] || (Disciplined(b, x, events[0]) && DisciplinedRun(b, Next(b, x, events[0]), events[1..], p))
  }

  lemma {:induction false} DisciplineRun(b: G.Bounds, x: System, events: seq<Event>, p: Path)
    requires SystemOk(b, x) && DisciplineOk(b, x) && AllowedRun(b, x, events, p) && DisciplinedRun(b, x, events, p)
    requires b.grace >= b.lease + b.delay
    ensures DisciplineOk(b, End(b, x, events, p))
    decreases |events|
  {
    if events != [] {
      EventKeepsDiscipline(b, x, events[0]);
      EventKeepsSystem(b, x, events[0]);
      DisciplineRun(b, Next(b, x, events[0]), events[1..], p);
    }
  }

  /** Under the discipline every copy that the metadata names is on its node, unless the node
      lost it. */
  lemma {:induction false} NamedCopiesStayUnlessLost(b: G.Bounds, x: System, events: seq<Event>, p: Path,
        content: seq<Byte>, c: Copy)
    requires Inv(b, x, p, content) && AllowedRun(b, x, events, p)
    requires DisciplineOk(b, x) && DisciplinedRun(b, x, events, p) && b.grace >= b.lease + b.delay
    requires NamedIn(End(b, x, events, p).y.s, p, c.id, c.address)
    ensures c in End(b, x, events, p).bytes || c in End(b, x, events, p).lost
  {
    InvRun(b, x, events, p, content);
    DisciplineRun(b, x, events, p);
    var end := End(b, x, events, p);
    assert Needed(View(b, end), p, c);
    if c in end.swept {
      DoomedIsNotNeeded(b, end, p, c);
    }
  }

  // ----- What it means to be rescued -----

  /** A repair of the copy is applied in the run. */
  ghost predicate RepairedIn(b: G.Bounds, x: System, events: seq<Event>, p: Path, c: Copy)
    requires AllowedRun(b, x, events, p)
    decreases |events|
  {
    events != []
    && (c in RepairedBy(x.y.s, events[0]) || RepairedIn(b, Next(b, x, events[0]), events[1..], p, c))
  }

  lemma {:induction false} RescuedWasRepaired(b: G.Bounds, x: System, events: seq<Event>, p: Path, c: Copy)
    requires AllowedRun(b, x, events, p) && c in End(b, x, events, p).rescued
    ensures c in x.rescued || RepairedIn(b, x, events, p, c)
    decreases |events|
  {
    if events != [] {
      RescuedWasRepaired(b, Next(b, x, events[0]), events[1..], p, c);
    }
  }

  /** A system in which nothing happened to the nodes yet meets every condition. */
  lemma {:induction false} QuietSystemStarts(b: G.Bounds, x: System)
    requires P.WorldOk(View(b, x)) && G.Inv(b, x.y) && x.y.cycle.Idle? && x.bytes.Keys == x.y.copies.Keys
    requires x.made == {} && x.pending == {} && x.lost == {} && x.swept == {} && x.rescued == {}
    ensures SystemOk(b, x) && CondemnedOk(b, x) && DisciplineOk(b, x)
  {
  }
}
