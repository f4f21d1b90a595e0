/** The write protocol, the re-replicator and the garbage collector over the same nodes, each of
    which has its own copies. Whatever the interleaving, any copy found of a block of a file
    holds its part of the committed content. */
module Cluster {
  import opened Common
  import opened Paths
  import opened Tree
  import opened Mutations
  import opened Effects
  import opened History
  import opened Locking
  import opened Conservation
  import opened Transactions
  import opened Walks
  import opened FileContent
  import opened Copies
  import G = Collector
  import P = WriteProtocol

  // ----- The system -----

  /** `bytes` is what each node holds. `store` is what was last sent under each id; `made` are
      the copies the re-replicator ever made, `pending` those of them still in flight since.
      `lost` are the copies that left a node otherwise than by the collector while the metadata
      named their block, `swept` those that the collector deleted, and `rescued` those that a
      repair recorded after the metadata was read by the cycle that deletes, or deleted, them. */
  datatype System = System(
    y: G.System, store: Store, intents: map<string, P.Intent>, bytes: map<Copy, seq<Byte>>,
    made: set<Copy>, pending: set<Copy>, lost: set<Copy>, swept: set<Copy>, rescued: set<Copy>)

  datatype Event =
    | Command(op: Op)
    | Begin(op: Op, data: seq<Byte>)
    | Commit(op: Op)
    | Write(writeId: string, from: Copy)
    | GiveUp(writeId: string, partial: map<string, seq<Byte>>)
    | Put(copy: Copy, data: seq<Byte>)
    | Replicate(copy: Copy, source: string)
    | Collect(event: G.Event)

  /** The clients' side of the system. */
  function View(b: G.Bounds, x: System): P.World {
    P.World(x.y.s, x.y.used, x.store, x.intents, x.y.clock - b.delay)
  }

  /** What a client gets when it reads the old block of its next slot from a node. */
  function Fetched(b: G.Bounds, x: System, id: string, from: Copy): seq<Byte>
    requires P.CanAdvance(View(b, x), id)
  {
    if P.NextSlot(View(b, x), id).oldId != "" && from in x.bytes then x.bytes[from] else []
  }

  /** The whole block is overwritten, or there is no old one, or it is read from a node that
      the client was told of. */
  predicate CanFetch(b: G.Bounds, x: System, id: string, from: Copy)
    requires P.CanAdvance(View(b, x), id)
  {
    var it, slot := x.intents[id], P.NextSlot(View(b, x), id);
    || Covered(slot, it.blockSize, it.offset, |it.data|)
    || slot.oldId == ""
    || (from in x.bytes && from.id == slot.oldId && from.address in slot.oldAddresses)
  }

  function CopiesAt(id: string, addresses: seq<string>): set<Copy> {
    set a | a in addresses :: Copy(id, a)
  }

  /** The same bytes on all the nodes. */
  function Everywhere(id: string, addresses: seq<string>, data: seq<Byte>): map<Copy, seq<Byte>> {
    map c | c in CopiesAt(id, addresses) :: data
  }

  /** What a failed chain left, node by node. */
  function Partial(id: string, partial: map<string, seq<Byte>>): map<Copy, seq<Byte>> {
    map c: Copy | c in (set a | a in partial :: Copy(id, a)) && c.address in partial :: partial[c.address]
  }

  /** The event as the write protocol sees it. */
  function ForClients(b: G.Bounds, x: System, e: Event): Option<P.Event> {
    match e
    case Command(op) => Some(P.Command(op))
    case Begin(op, data) => Some(P.Begin(op, data))
    case Commit(op) => Some(P.Commit(op))
    case Write(id, from) =>
      Some(P.WriteNext(id, if P.CanAdvance(View(b, x), id) then Fetched(b, x, id, from) else []))
    case GiveUp(id, _) => Some(P.GiveUp(id, []))
    case Put(c, data) => Some(P.PutBlock(c.id, data))
    case Replicate(_, _) => None
    case Collect(g) => if g.Tick? then Some(P.Tick(g.now - b.delay)) else None
  }

  /** What the event leaves on the nodes. */
  function Stores(b: G.Bounds, x: System, e: Event): map<Copy, seq<Byte>> {
    match e
    case Write(id, from) =>
      if P.CanAdvance(View(b, x), id) then
        var slot := P.NextSlot(View(b, x), id);
        Everywhere(slot.newId, slot.newAddresses, P.BytesOfNext(View(b, x), id, Fetched(b, x, id, from)))
      else map[]
    case GiveUp(id, partial) =>
      if id in x.intents && x.intents[id].written < |x.intents[id].slots| then
        Partial(P.NextSlot(View(b, x), id).newId, partial)
      else map[]
    case Put(c, data) => map[c := data]
    case Replicate(c, source) => if Copy(c.id, source) in x.bytes then map[c := x.bytes[Copy(c.id, source)]] else map[]
    case _ => map[]
  }

  /** The event as the collector sees it. */
  function ForCollector(b: G.Bounds, x: System, e: Event): G.Event {
    match e
    case Command(op) => G.Applied(op)
    case Begin(op, _) => G.Applied(op)
    case Commit(op) => G.Applied(op)
    case Collect(g) => g
    case _ => G.Stored(Stores(b, x, e).Keys)
  }

  /** What only this system knows: from which nodes bytes are read, and that a repair records
      copies that were made. */
  ghost predicate AtNodes(b: G.Bounds, x: System, e: Event) {
    match e
    case Command(op) =>
      op.UpdateReplicasOp? ==> forall a :: a in op.replacement ==> a in op.expected || Copy(op.blockId, a) in x.made
    case Write(id, from) => P.CanAdvance(View(b, x), id) ==> CanFetch(b, x, id, from)
    case Replicate(c, source) => c in x.y.inFlight && Copy(c.id, source) in x.bytes
    case Collect(g) => !g.Applied? && !g.Stored?
    case _ => true
  }

  ghost predicate Allowed(b: G.Bounds, x: System, e: Event) {
    && (ForClients(b, x, e).Some? ==> P.Allowed(View(b, x), ForClients(b, x, e).value))
    && G.Allowed(b, x.y, ForCollector(b, x, e))
    && AtNodes(b, x, e)
  }

  ghost function ViewAfter(b: G.Bounds, x: System, e: Event): P.World
    requires Allowed(b, x, e)
  {
    if ForClients(b, x, e).Some? then P.Next(View(b, x), ForClients(b, x, e).value) else View(b, x)
  }

  function Gone(e: Event): set<Copy> {
    if e.Collect? && (e.event.Deleted? || e.event.Lost?) then {e.event.copy} else {}
  }

  ghost function LostAfter(b: G.Bounds, x: System, e: Event): set<Copy> {
    if e.Collect? && e.event.Lost? && e.event.copy in x.bytes && Referenced(x.y.s, e.event.copy.id)
    then x.lost + {e.event.copy}
    else x.lost - Stores(b, x, e).Keys
  }

  function SweptAfter(b: G.Bounds, x: System, e: Event): set<Copy> {
    if e.Collect? && e.event.Deleted? && e.event.copy in x.bytes then x.swept + {e.event.copy}
    else x.swept - Stores(b, x, e).Keys
  }

  /** The copies that an applied repair records. */
  ghost function RepairedBy(s: State, e: Event): set<Copy> {
    if e.Command? && e.op.UpdateReplicasOp? && Succeeds(s, e.op) then CopiesAt(e.op.blockId, e.op.replacement) else {}
  }

  ghost function RescuedAfter(x: System, e: Event): set<Copy> {
    if e.Collect? && e.event.MetadataRead? then x.rescued * x.swept else x.rescued + RepairedBy(x.y.s, e)
  }

  function MadeAfter(x: System, e: Event): set<Copy> {
    if e.Replicate? then x.made + {e.copy} else x.made
  }

  function PendingAfter(x: System, e: Event): set<Copy> {
    if e.Replicate? then x.pending + {e.copy}
    else if e.Collect? && e.event.CopyEnds? then x.pending - {e.event.copy}
    else x.pending
  }

  /** Copies that are not on their node though they were. */
  function Missing(x: System): set<Copy> {
    x.lost + x.swept
  }

  ghost function MissingAfter(b: G.Bounds, x: System, e: Event): set<Copy> {
    LostAfter(b, x, e) + SweptAfter(b, x, e)
  }

  ghost function Next(b: G.Bounds, x: System, e: Event): System
    requires Allowed(b, x, e)
  {
    System(G.Next(b, x.y, ForCollector(b, x, e)), ViewAfter(b, x, e).store, ViewAfter(b, x, e).intents,
           x.bytes - Gone(e) + Stores(b, x, e), MadeAfter(x, e), PendingAfter(x, e),
           LostAfter(b, x, e), SweptAfter(b, x, e), RescuedAfter(x, e))
  }

  /** The two models are views of one system. */
  lemma {:induction false} ViewOfNext(b: G.Bounds, x: System, e: Event)
    requires Allowed(b, x, e)
    ensures View(b, Next(b, x, e)) == ViewAfter(b, x, e)
  {
    StateOfNext(b, x, e);
  }

  ghost predicate SameState(b: G.Bounds, w: P.World, y: G.System) {
    w.s == y.s && w.used == y.used && w.horizon == y.clock - b.delay
  }

  lemma {:induction false} StateOfNext(b: G.Bounds, x: System, e: Event)
    requires Allowed(b, x, e)
    ensures SameState(b, ViewAfter(b, x, e), G.Next(b, x.y, ForCollector(b, x, e)))
  {
    if e.Command? || e.Begin? || e.Commit? {
      StateAfterCommand(b, x, e);
    } else {
      StateAfterTheRest(b, x, e);
    }
  }

  lemma {:induction false} StateAfterCommand(b: G.Bounds, x: System, e: Event)
    requires Allowed(b, x, e) && (e.Command? || e.Begin? || e.Commit?)
    ensures SameState(b, ViewAfter(b, x, e), G.Next(b, x.y, ForCollector(b, x, e)))
  {
  }

  lemma {:induction false} StateAfterTheRest(b: G.Bounds, x: System, e: Event)
    requires Allowed(b, x, e) && !e.Command? && !e.Begin? && !e.Commit?
    ensures SameState(b, ViewAfter(b, x, e), G.Next(b, x.y, ForCollector(b, x, e)))
  {
  }

  // ----- What every event keeps -----

  /** The bytes stored under the id matter to the file. */
  ghost predicate Matters(w: P.World, p: Path, id: string) {
    exists a :: P.Protected(w, p, a) && IdAt(w.s, a) == Some(id)
  }

  /** A copy of a block written for a reservation that could still commit on the file. */
  ghost predicate Written(w: P.World, p: Path, writeId: string, k: nat, c: Copy) {
    && P.Protected(w, p, InWrite(writeId, k))
    && k < |w.s.writes[writeId].slots| && w.s.writes[writeId].slots[k].blockId == c.id
    && c.address in w.s.writes[writeId].slots[k].addresses
  }

  ghost predicate Needed(w: P.World, p: Path, c: Copy) {
    NamedIn(w.s, p, c.id, c.address) || exists writeId, k: nat :: Written(w, p, writeId, k, c)
  }

  ghost predicate Faithful(w: P.World, p: Path, bytes: map<Copy, seq<Byte>>) {
    forall c :: c in bytes && Matters(w, p, c.id) && c.id in w.store ==> bytes[c] == w.store[c.id]
  }

  ghost predicate Present(w: P.World, p: Path, held: set<Copy>) {
    forall c :: Needed(w, p, c) ==> c in held
  }

  /** A slot that a client still has to write, for a reservation on the file. */
  ghost predicate Awaited(w: P.World, p: Path, id: string, k: nat) {
    && P.Viable(w.s, p, id) && id in w.intents && !w.intents[id].abandoned
    && w.intents[id].written <= k < |w.intents[id].slots|
  }

  /** No node holds anything under its id. */
  ghost predicate Clean(w: P.World, p: Path, held: set<Copy>) {
    forall id, k: nat :: Awaited(w, p, id, k) ==> NoCopies(held, w.intents[id].slots[k].newId)
  }

  ghost predicate NoCopies(held: set<Copy>, id: string) {
    forall c :: c in held ==> c.id != id
  }

  /** A copy once made is there, or missing, or its block left the metadata. */
  ghost predicate MadeOk(made: set<Copy>, y: G.System, held: set<Copy>) {
    forall c :: c in made ==> c.id in y.used && (c in held || !Referenced(y.s, c.id))
  }

  /** What is missing is not there, and for one reason. */
  ghost predicate Apart(x: System) {
    x.bytes.Keys !! x.lost && x.bytes.Keys !! x.swept && x.lost !! x.swept
  }

  /** `lost` is all that is missing. */
  ghost predicate NodesOk(w: P.World, p: Path, bytes: map<Copy, seq<Byte>>, lost: set<Copy>) {
    Faithful(w, p, bytes) && Present(w, p, bytes.Keys + lost) && Clean(w, p, bytes.Keys)
  }

  /** What holds whether or not there is a file to follow. */
  ghost predicate SystemOk(b: G.Bounds, x: System) {
    && P.WorldOk(View(b, x)) && G.Inv(b, x.y) && x.bytes.Keys == x.y.copies.Keys
    && MadeOk(x.made, x.y, x.bytes.Keys + Missing(x)) && Apart(x)
  }

  ghost predicate Inv(b: G.Bounds, x: System, p: Path, content: seq<Byte>) {
    SystemOk(b, x) && P.Inv(View(b, x), p, content) && NodesOk(View(b, x), p, x.bytes, Missing(x))
  }

  // ----- Commands -----

  ghost predicate IsCommand(e: P.Event) {
    e.Command? || e.Begin? || e.Commit?
  }

  /** A command changes neither the clock nor how far a write in progress got. */
  ghost predicate InProgress(w: P.World, w': P.World, e: P.Event, id: string)
    requires IsCommand(e)
  {
    && w'.horizon == w.horizon && w'.s == Step(w.s, e.op).0
    && if e.Begin? && e.op.BeginWriteOp? && Succeeds(w.s, e.op) && id == e.op.writeId
       then id in w'.intents ==> w'.intents[id].written == 0
       else id in w'.intents ==> id in w.intents && w'.intents[id].written == w.intents[id].written
  }

  lemma {:induction false} WritesInProgress(w: P.World, e: P.Event, id: string)
    requires P.Allowed(w, e) && IsCommand(e)
    ensures InProgress(w, P.Next(w, e), e, id)
  {
    match e
    case Begin(op, data) =>
      if Succeeds(w.s, op) {
        P.BegunWrite(w.s, op, data);
        P.AfterBegin(w, op, data);
      }
    case _ => OthersInProgress(w, e, id);
  }

  lemma {:induction false} OthersInProgress(w: P.World, e: P.Event, id: string)
    requires P.Allowed(w, e) && (e.Command? || e.Commit?)
    ensures InProgress(w, P.Next(w, e), e, id)
  {
  }

  lemma {:induction false} IsFresh(w: P.World, e: P.Event)
    requires P.Allowed(w, e) && IsCommand(e)
    ensures FreshOp(w.used, e.op)
  {
    if e.Commit? {
      assert NewIds(e.op) == [];
    }
  }

  lemma {:induction false} ReservedBefore(w: P.World, p: Path, e: P.Event, id: string, k: nat)
    requires P.WorldOk(w) && P.Allowed(w, e) && IsCommand(e) && P.Protected(P.Next(w, e), p, InWrite(id, k))
    ensures P.Protected(w, p, InWrite(id, k)) && P.Next(w, e).s.writes[id] == w.s.writes[id]
  {
    var w' := P.Next(w, e);
    WritesInProgress(w, e, id);
    IsFresh(w, e);
    P.ViableBefore(w.s, w.used, e.op, p, id);
    SameProtection(w, w', p, id, k);
  }

  lemma {:induction false} SameProtection(w: P.World, w': P.World, p: Path, id: string, k: nat)
    requires P.Protected(w', p, InWrite(id, k)) && w'.horizon == w.horizon
    requires P.Viable(w.s, p, id) && w'.s.writes[id] == w.s.writes[id]
    requires id in w.intents && w'.intents[id].written == w.intents[id].written
    ensures P.Protected(w, p, InWrite(id, k))
  {
  }

  /** The reservation a commit publishes was written to its end. */
  lemma {:induction false} CommittedWasWritten(w: P.World, p: Path, content: seq<Byte>, op: Op, k: nat)
    requires P.Inv(w, p, content) && P.Allowed(w, P.Commit(op)) && Succeeds(w.s, op) && Target(op) == Ok(p)
    requires op.writeId in w.s.writes && k < |w.s.writes[op.writeId].slots|
    ensures P.Protected(w, p, InWrite(op.writeId, k))
  {
    CommitHoldsTheLock(w.s, op);
    P.CommitBeforeExpiry(w.s, op);
    assert P.Backed(w, p, content, op.writeId);
  }

  lemma {:induction false} NamedBefore(w: P.World, p: Path, content: seq<Byte>, e: P.Event, c: Copy)
    requires P.Inv(w, p, content) && P.Allowed(w, e) && IsCommand(e) && NamedIn(P.Next(w, e).s, p, c.id, c.address)
    ensures Needed(w, p, c) || (e.Command? && RecordsCopy(w.s, e.op, c))
  {
    var i :| NamedAt(Step(w.s, e.op).0.root, p, i, c.id, c.address);
    NamedAfterStep(w.s, e.op, p, i, c.id, c.address);
    if !NamedIn(w.s, p, c.id, c.address) {
      if e.op.BeginUploadOp? {
        UploadCommandsSpareCommitted(w.s, e.op);
      } else if e.op.CommitWriteOp? {
        var k: nat :| k < |w.s.writes[e.op.writeId].slots| && w.s.writes[e.op.writeId].slots[k].blockId == c.id
                      && c.address in w.s.writes[e.op.writeId].slots[k].addresses;
        CommittedWasWritten(w, p, content, e.op, k);
        assert Written(w, p, e.op.writeId, k, c);
      }
    }
  }

  ghost predicate RecordsCopy(s: State, op: Op, c: Copy) {
    op.UpdateReplicasOp? && Succeeds(s, op) && op.blockId == c.id && c.address in op.replacement
        && c.address !in op.expected
  }

  /** What is needed after a command was needed before it, or is what a repair records. */
  lemma {:induction false} NeededBefore(w: P.World, p: Path, content: seq<Byte>, e: P.Event, c: Copy)
    requires P.Inv(w, p, content) && P.Allowed(w, e) && IsCommand(e) && Needed(P.Next(w, e), p, c)
    ensures Needed(w, p, c) || (e.Command? && RecordsCopy(w.s, e.op, c))
  {
    if NamedIn(P.Next(w, e).s, p, c.id, c.address) {
      NamedBefore(w, p, content, e, c);
    } else {
      var writeId, k: nat :| Written(P.Next(w, e), p, writeId, k, c);
      ReservedBefore(w, p, e, writeId, k);
      assert Written(w, p, writeId, k, c);
    }
  }

  lemma {:induction false} MattersBefore(w: P.World, p: Path, content: seq<Byte>, e: P.Event, id: string)
    requires P.Inv(w, p, content) && P.Allowed(w, e) && IsCommand(e) && Matters(P.Next(w, e), p, id)
    ensures Matters(w, p, id)
  {
    var a :| P.Protected(P.Next(w, e), p, a) && IdAt(P.Next(w, e).s, a) == Some(id);
    if a.InWrite? {
      ReservedBefore(w, p, e, a.writeId, a.k);
      assert IdAt(w.s, a) == Some(id);
    } else {
      FileIdMatters(w, p, content, e, a.i, id);
    }
  }

  lemma {:induction false} FileIdMatters(w: P.World, p: Path, content: seq<Byte>, e: P.Event, i: nat, id: string)
    requires P.Inv(w, p, content) && P.Allowed(w, e) && IsCommand(e)
    requires IdAt(Step(w.s, e.op).0, InFile(p, i)) == Some(id)
    ensures Matters(w, p, id)
  {
    var a := InFile(p, i);
    IdsHaveOrigins(w.s, e.op, a);
    if e.op.BeginUploadOp? && Succeeds(w.s, e.op) {
      UploadCommandsSpareCommitted(w.s, e.op);
    }
    var origin := OriginOf(w.s, e.op, a);
    assert origin.Old? && IdAt(w.s, origin.loc) == Some(id);
    if origin.loc.InWrite? {
      CommittedWasWritten(w, p, content, e.op, origin.loc.k);
    }
    assert P.Protected(w, p, origin.loc);
  }

  lemma {:induction false} CommandKeepsFaithful(w: P.World, p: Path, content: seq<Byte>, e: P.Event,
        bytes: map<Copy, seq<Byte>>)
    requires P.Inv(w, p, content) && P.Allowed(w, e) && IsCommand(e) && Faithful(w, p, bytes)
    ensures Faithful(P.Next(w, e), p, bytes)
  {
    var w' := P.Next(w, e);
    forall c | c in bytes && Matters(w', p, c.id) && c.id in w'.store ensures bytes[c] == w'.store[c.id] {
      MattersBefore(w, p, content, e, c.id);
    }
  }

  lemma {:induction false} CommandKeepsPresent(w: P.World, p: Path, content: seq<Byte>, e: P.Event, held: set<Copy>)
    requires P.Inv(w, p, content) && P.Allowed(w, e) && IsCommand(e) && Present(w, p, held)
    requires e.Command? ==> forall c :: RecordsCopy(w.s, e.op, c) ==> c in held
    ensures Present(P.Next(w, e), p, held)
  {
    forall c | Needed(P.Next(w, e), p, c) ensures c in held {
      NeededBefore(w, p, content, e, c);
    }
  }

  lemma {:induction false} RecordedIsReferenced(s: State, op: Op, c: Copy)
    requires RecordsCopy(s, op, c)
    ensures Referenced(s, c.id)
  {
    var path := Target(op).value;
    assert IdAt(s, InFile(path, IndexOfBlock(FileAt(s.root, path).value.blocks, op.blockId))) == Some(c.id);
  }

  lemma {:induction false} AwaitedAfterBegin(w: P.World, p: Path, content: seq<Byte>, e: P.Event, k: nat)
    requires P.Allowed(w, e) && e.Begin? && Succeeds(w.s, e.op) && P.Inv(P.Next(w, e), p, content)
    requires Awaited(P.Next(w, e), p, e.op.writeId, k)
    ensures P.Next(w, e).intents[e.op.writeId].slots[k].newId !in w.used
  {
    var w' := P.Next(w, e);
    NewSlotIdsAreFresh(w.s, w.used, e.op);
    assert P.Backed(w', p, content, e.op.writeId);
    assert SlotNames(w'.s.writes[e.op.writeId], w'.intents[e.op.writeId].slots[k].newId);
  }

  lemma {:induction false} AwaitedBefore(w: P.World, p: Path, e: P.Event, id: string, k: nat)
    requires P.WorldOk(w) && P.Allowed(w, e) && IsCommand(e) && Awaited(P.Next(w, e), p, id, k)
    requires !(e.Begin? && Succeeds(w.s, e.op) && id == e.op.writeId)
    ensures Awaited(w, p, id, k) && P.Next(w, e).intents[id].slots == w.intents[id].slots
  {
    SlotsInProgress(w, e, id);
    IsFresh(w, e);
    P.ViableBefore(w.s, w.used, e.op, p, id);
  }

  lemma {:induction false} SlotsInProgress(w: P.World, e: P.Event, id: string)
    requires P.Allowed(w, e) && IsCommand(e) && id in P.Next(w, e).intents
    requires !(e.Begin? && Succeeds(w.s, e.op) && id == e.op.writeId)
    ensures P.Next(w, e).s == Step(w.s, e.op).0 && id in w.intents
    ensures P.Next(w, e).intents[id] == w.intents[id].(published := P.Next(w, e).intents[id].published)
    ensures e.Command? ==> !e.op.BeginWriteOp?
  {
  }

  lemma {:induction false} CommandKeepsClean(w: P.World, p: Path, content: seq<Byte>, e: P.Event, held: set<Copy>)
    requires P.WorldOk(w) && P.Allowed(w, e) && IsCommand(e) && P.Inv(P.Next(w, e), p, content) && Clean(w, p, held)
    requires forall c :: c in held ==> c.id in w.used
    ensures Clean(P.Next(w, e), p, held)
  {
    var w' := P.Next(w, e);
    forall id, k: nat | Awaited(w', p, id, k) ensures NoCopies(held, w'.intents[id].slots[k].newId) {
      if e.Begin? && Succeeds(w.s, e.op) && id == e.op.writeId {
        AwaitedAfterBegin(w, p, content, e, k);
      } else {
        AwaitedBefore(w, p, e, id, k);
      }
    }
  }

  lemma {:induction false} CommandKeepsMade(y: G.System, y': G.System, op: Op, made: set<Copy>, held: set<Copy>)
    requires Sound(y.s, y.used) && FreshOp(y.used, op) && MadeOk(made, y, held)
    requires y'.s == Step(y.s, op).0 && y'.used == Learn(y.used, op)
    ensures MadeOk(made, y', held)
  {
    forall c | c in made ensures c in held || !Referenced(y'.s, c.id) {
      if !Referenced(y.s, c.id) {
        DeadStaysDead(y.s, y.used, op, c.id);
      }
    }
  }

  lemma {:induction false} CommandKeepsNodes(w: P.World, p: Path, content: seq<Byte>, content': seq<Byte>, e: P.Event,
                                             bytes: map<Copy, seq<Byte>>, lost: set<Copy>)
    requires P.Inv(w, p, content) && P.Allowed(w, e) && IsCommand(e) && P.Inv(P.Next(w, e), p, content')
    requires NodesOk(w, p, bytes, lost) && forall c :: c in bytes ==> c.id in w.used
    requires e.Command? ==> forall c :: RecordsCopy(w.s, e.op, c) ==> c in bytes.Keys + lost
    ensures NodesOk(P.Next(w, e), p, bytes, lost)
  {
    CommandKeepsFaithful(w, p, content, e, bytes);
    CommandKeepsPresent(w, p, content, e, bytes.Keys + lost);
    CommandKeepsClean(w, p, content', e, bytes.Keys);
  }

  /** A repair records copies that are there, or missing. */
  lemma {:induction false} RecordedIsThere(b: G.Bounds, x: System, op: Op, c: Copy)
    requires MadeOk(x.made, x.y, x.bytes.Keys + Missing(x)) && AtNodes(b, x, Command(op))
    requires RecordsCopy(x.y.s, op, c)
    ensures c in x.bytes.Keys + Missing(x)
  {
    RecordedIsReferenced(x.y.s, op, c);
    assert Copy(op.blockId, c.address) == c;
  }

  // ----- Blocks written -----

  /** Only the slot being written is at the id it is written under. */
  lemma {:induction false} NextIdIsAlone(w: P.World, p: Path, content: seq<Byte>, id: string, other: string, k: nat)
    requires P.Inv(w, p, content) && id in w.intents && w.intents[id].written < |w.intents[id].slots|
    requires P.Viable(w.s, p, other) && other in w.intents && k < |w.intents[other].slots|
    requires w.intents[other].slots[k].newId == P.NextSlot(w, id).newId
    ensures other == id && k == w.intents[id].written
  {
    assert P.IntentOk(w, id) && P.Backed(w, p, content, other);
    assert P.Owned(w, id, w.intents[id].written, P.NextSlot(w, id).newId);
    assert IdAt(w.s, InWrite(other, k)) == Some(P.NextSlot(w, id).newId);
  }

  /** Nor does it matter to the file yet. */
  lemma {:induction false} NextDoesNotMatter(w: P.World, p: Path, content: seq<Byte>, id: string)
    requires P.Inv(w, p, content) && id in w.intents && w.intents[id].written < |w.intents[id].slots|
    ensures !Matters(w, p, P.NextSlot(w, id).newId)
  {
    assert P.IntentOk(w, id);
    assert P.Owned(w, id, w.intents[id].written, P.NextSlot(w, id).newId);
  }

  lemma {:induction false} StoringKeepsClean(w: P.World, w': P.World, p: Path, content: seq<Byte>, id: string,
                                             held: set<Copy>, held': set<Copy>)
    requires P.Inv(w, p, content) && id in w.intents && w.intents[id].written < |w.intents[id].slots|
    requires Clean(w, p, held)
    requires w'.s == w.s && w'.intents.Keys == w.intents.Keys
    requires forall other :: other in w.intents && other != id ==> w'.intents[other] == w.intents[other]
    requires w'.intents[id].abandoned || w'.intents[id].written > w.intents[id].written
    requires w'.intents[id].slots == w.intents[id].slots
    requires w'.intents[id].abandoned || !w.intents[id].abandoned
    requires forall c :: c in held' ==> c in held || c.id == P.NextSlot(w, id).newId
    ensures Clean(w', p, held')
  {
    forall other, k: nat | Awaited(w', p, other, k) ensures NoCopies(held', w'.intents[other].slots[k].newId) {
      assert Awaited(w, p, other, k);
      if w.intents[other].slots[k].newId == P.NextSlot(w, id).newId {
        NextIdIsAlone(w, p, content, id, other, k);
      }
    }
  }

  lemma {:induction false} AfterAdvance(w: P.World, p: Path, content: seq<Byte>, id: string, data: seq<Byte>, a: Loc)
    requires P.Inv(w, p, content) && P.CanAdvance(w, id) && P.Protected(P.Advanced(w, id, data), p, a)
    ensures P.Protected(w, p, a)
              || (a == InWrite(id, w.intents[id].written) && P.Viable(w.s, p, id))
  {
  }

  lemma {:induction false} WrittenSlot(w: P.World, p: Path, content: seq<Byte>, id: string)
    requires P.Inv(w, p, content) && P.CanAdvance(w, id) && P.Viable(w.s, p, id)
    ensures w.intents[id].written < |w.s.writes[id].slots|
    ensures var slot := w.s.writes[id].slots[w.intents[id].written];
            slot.blockId == P.NextSlot(w, id).newId && slot.addresses == P.NextSlot(w, id).newAddresses
  {
    assert P.Backed(w, p, content, id);
  }

  lemma {:induction false} WriteKeepsFaithful(w: P.World, p: Path, content: seq<Byte>, id: string, data: seq<Byte>,
                                              bytes: map<Copy, seq<Byte>>)
    requires P.Inv(w, p, content) && P.CanAdvance(w, id) && Faithful(w, p, bytes) && Clean(w, p, bytes.Keys)
    ensures var slot := P.NextSlot(w, id);
            Faithful(P.Advanced(w, id, data), p, bytes + Everywhere(slot.newId, slot.newAddresses, data))
  {
    var w', slot := P.Advanced(w, id, data), P.NextSlot(w, id);
    var bytes' := bytes + Everywhere(slot.newId, slot.newAddresses, data);
    forall c | c in bytes' && Matters(w', p, c.id) && c.id in w'.store ensures bytes'[c] == w'.store[c.id] {
      if c !in CopiesAt(slot.newId, slot.newAddresses) {
        OldCopyStaysFaithful(w, p, content, id, data, bytes, c);
      }
    }
  }

  lemma {:induction false} OldCopyStaysFaithful(w: P.World, p: Path, content: seq<Byte>, id: string, data: seq<Byte>,
                                                bytes: map<Copy, seq<Byte>>, c: Copy)
    requires P.Inv(w, p, content) && P.CanAdvance(w, id) && Faithful(w, p, bytes) && Clean(w, p, bytes.Keys)
    requires c in bytes && Matters(P.Advanced(w, id, data), p, c.id) && c.id in P.Advanced(w, id, data).store
    ensures bytes[c] == P.Advanced(w, id, data).store[c.id]
  {
    var a :| P.Protected(P.Advanced(w, id, data), p, a) && IdAt(w.s, a) == Some(c.id);
    AfterAdvance(w, p, content, id, data, a);
    NextDoesNotMatter(w, p, content, id);
    if a == InWrite(id, w.intents[id].written) {
      WrittenSlot(w, p, content, id);
      assert Awaited(w, p, id, w.intents[id].written);
    }
  }

  lemma {:induction false} WriteKeepsPresent(w: P.World, p: Path, content: seq<Byte>, id: string, data: seq<Byte>,
        held: set<Copy>)
    requires P.Inv(w, p, content) && P.CanAdvance(w, id) && Present(w, p, held)
    ensures var slot := P.NextSlot(w, id);
            Present(P.Advanced(w, id, data), p, held + CopiesAt(slot.newId, slot.newAddresses))
  {
    var w', slot := P.Advanced(w, id, data), P.NextSlot(w, id);
    forall c | Needed(w', p, c) ensures c in held + CopiesAt(slot.newId, slot.newAddresses) {
      if !Needed(w, p, c) {
        var writeId, k: nat :| Written(w', p, writeId, k, c);
        AfterAdvance(w, p, content, id, data, InWrite(writeId, k));
        assert !Written(w, p, writeId, k, c);
        WrittenSlot(w, p, content, id);
      }
    }
  }

  lemma {:induction false} WriteKeepsNodes(w: P.World, p: Path, content: seq<Byte>, id: string, data: seq<Byte>,
                                           bytes: map<Copy, seq<Byte>>, lost: set<Copy>)
    requires P.Inv(w, p, content) && P.CanAdvance(w, id) && NodesOk(w, p, bytes, lost)
    ensures var stored := Everywhere(P.NextSlot(w, id).newId, P.NextSlot(w, id).newAddresses, data);
            NodesOk(P.Advanced(w, id, data), p, bytes + stored, lost - stored.Keys)
  {
    var stored := Everywhere(P.NextSlot(w, id).newId, P.NextSlot(w, id).newAddresses, data);
    WriteKeepsFaithful(w, p, content, id, data, bytes);
    WriteKeepsPresent(w, p, content, id, data, bytes.Keys + lost);
    StoringKeepsClean(w, P.Advanced(w, id, data), p, content, id, bytes.Keys, (bytes + stored).Keys);
    assert (bytes + stored).Keys + (lost - stored.Keys)
           == bytes.Keys + lost + CopiesAt(P.NextSlot(w, id).newId, P.NextSlot(w, id).newAddresses);
  }

  /** A read for a write that may yet commit gets the old block as it was stored. */
  lemma {:induction false} FetchedIsStored(b: G.Bounds, x: System, p: Path, content: seq<Byte>, id: string, from: Copy)
    requires P.Inv(View(b, x), p, content) && Faithful(View(b, x), p, x.bytes)
    requires P.CanAdvance(View(b, x), id) && CanFetch(b, x, id, from)
    ensures P.FetchesRight(View(b, x), p, id, Fetched(b, x, id, from))
  {
    var w := View(b, x);
    var slot := P.NextSlot(w, id);
    if P.Live(w, p, id) {
      assert P.Backed(w, p, content, id);
      var file := CommittedFile(w.s.root, p).value;
      var plan, first :| P.Planned(file, content, w.intents[id], plan, first);
      assert P.OldBlock(file.blocks, slot);
      if slot.oldId != "" {
        assert IdAt(w.s, InFile(p, slot.index)) == Some(slot.oldId);
        assert P.Protected(w, p, InFile(p, slot.index));
      }
    }
  }

  // ----- Everything else -----

  /** Nothing new is written for the file. */
  ghost predicate Quiet(w: P.World, w': P.World) {
    && w'.s == w.s && w'.horizon >= w.horizon && w'.intents.Keys == w.intents.Keys
    && forall id :: id in w.intents ==> w'.intents[id].written == w.intents[id].written
  }

  lemma {:induction false} QuietNeeds(w: P.World, w': P.World, p: Path, c: Copy)
    requires Quiet(w, w') && Needed(w', p, c)
    ensures Needed(w, p, c)
  {
    if writeId, k: nat :| Written(w', p, writeId, k, c) {
      assert Written(w, p, writeId, k, c);
    }
  }

  lemma {:induction false} QuietMatters(w: P.World, w': P.World, p: Path, id: string)
    requires Quiet(w, w') && Matters(w', p, id)
    ensures Matters(w, p, id)
  {
    var a :| P.Protected(w', p, a) && IdAt(w'.s, a) == Some(id);
    assert P.Protected(w, p, a);
  }

  /** A copy that matters is one that was there, or is a copy of one. */
  ghost predicate FromBefore(w: P.World, w': P.World, bytes: map<Copy, seq<Byte>>, bytes': map<Copy, seq<Byte>>,
        c: Copy)
    requires c in bytes'
  {
    && (c.id in w'.store ==> c.id in w.store && w'.store[c.id] == w.store[c.id])
    && exists d :: d in bytes && d.id == c.id && bytes[d] == bytes'[c]
  }

  lemma {:induction false} QuietKeepsFaithful(w: P.World, w': P.World, p: Path, bytes: map<Copy, seq<Byte>>,
                                              bytes': map<Copy, seq<Byte>>)
    requires Quiet(w, w') && Faithful(w, p, bytes)
    requires forall c :: c in bytes' && Matters(w, p, c.id) ==> FromBefore(w, w', bytes, bytes', c)
    ensures Faithful(w', p, bytes')
  {
    forall c | c in bytes' && Matters(w', p, c.id) && c.id in w'.store ensures bytes'[c] == w'.store[c.id] {
      QuietMatters(w, w', p, c.id);
      assert FromBefore(w, w', bytes, bytes', c);
    }
  }

  lemma {:induction false} QuietKeepsPresent(w: P.World, w': P.World, p: Path, held: set<Copy>, held': set<Copy>)
    requires Quiet(w, w') && Present(w, p, held) && forall c :: c in held && Needed(w, p, c) ==> c in held'
    ensures Present(w', p, held')
  {
    forall c | Needed(w', p, c) ensures c in held' {
      QuietNeeds(w, w', p, c);
    }
  }

  lemma {:induction false} GivingUpKeepsNodes(w: P.World, w': P.World, p: Path, content: seq<Byte>, id: string,
        stored: map<Copy, seq<Byte>>, bytes: map<Copy, seq<Byte>>, lost: set<Copy>)
    requires P.Inv(w, p, content) && NodesOk(w, p, bytes, lost)
    requires id in w.intents && w.intents[id].written < |w.intents[id].slots|
    requires w' == w.(store := w.store[P.NextSlot(w, id).newId := []],
                      intents := w.intents[id := w.intents[id].(abandoned := true)])
    requires forall c :: c in stored ==> c.id == P.NextSlot(w, id).newId
    ensures NodesOk(w', p, bytes + stored, lost - stored.Keys)
  {
    var bytes' := bytes + stored;
    NextDoesNotMatter(w, p, content, id);
    forall c | c in bytes' && Matters(w, p, c.id) ensures FromBefore(w, w', bytes, bytes', c) {
      assert c in bytes && bytes'[c] == bytes[c];
    }
    QuietKeepsFaithful(w, w', p, bytes, bytes');
    QuietKeepsPresent(w, w', p, bytes.Keys + lost, bytes'.Keys + (lost - stored.Keys));
    StoringKeepsClean(w, w', p, content, id, bytes.Keys, bytes'.Keys);
  }

  lemma {:induction false} AwaitedIsReserved(w: P.World, p: Path, content: seq<Byte>, id: string, k: nat)
    requires P.Inv(w, p, content) && Awaited(w, p, id, k)
    ensures IdAt(w.s, InWrite(id, k)) == Some(w.intents[id].slots[k].newId)
  {
    assert P.Backed(w, p, content, id);
  }

  lemma {:induction false} PuttingKeepsNodes(w: P.World, p: Path, content: seq<Byte>, c: Copy, data: seq<Byte>,
                                             bytes: map<Copy, seq<Byte>>, lost: set<Copy>)
    requires P.Inv(w, p, content) && P.Allowed(w, P.PutBlock(c.id, data)) && NodesOk(w, p, bytes, lost)
    ensures NodesOk(w.(store := w.store[c.id := data]), p, bytes[c := data], lost - {c})
  {
    var w', bytes' := w.(store := w.store[c.id := data]), bytes[c := data];
    assert !Matters(w, p, c.id);
    forall d | d in bytes' && Matters(w, p, d.id) ensures FromBefore(w, w', bytes, bytes', d) {
      assert d in bytes && bytes'[d] == bytes[d];
    }
    QuietKeepsFaithful(w, w', p, bytes, bytes');
    QuietKeepsPresent(w, w', p, bytes.Keys + lost, bytes'.Keys + (lost - {c}));
    forall id, k: nat | Awaited(w', p, id, k) ensures NoCopies(bytes'.Keys, w'.intents[id].slots[k].newId) {
      assert Awaited(w, p, id, k);
      AwaitedIsReserved(w, p, content, id, k);
    }
  }

  lemma {:induction false} ReplicatingKeepsNodes(w: P.World, p: Path, c: Copy, source: Copy,
                                                 bytes: map<Copy, seq<Byte>>, lost: set<Copy>)
    requires source in bytes && source.id == c.id && NodesOk(w, p, bytes, lost)
    ensures NodesOk(w, p, bytes[c := bytes[source]], lost - {c})
  {
    var bytes' := bytes[c := bytes[source]];
    forall d | d in bytes' && Matters(w, p, d.id) ensures FromBefore(w, w, bytes, bytes', d) {
      assert bytes'[d] == bytes[if d == c then source else d];
    }
    QuietKeepsFaithful(w, w, p, bytes, bytes');
    QuietKeepsPresent(w, w, p, bytes.Keys + lost, bytes'.Keys + (lost - {c}));
  }

  lemma {:induction false} NeededIsReferenced(w: P.World, p: Path, c: Copy)
    requires Needed(w, p, c)
    ensures Referenced(w.s, c.id)
  {
    if i :| NamedAt(w.s.root, p, i, c.id, c.address) {
      assert IdAt(w.s, InFile(p, i)) == Some(c.id);
    } else {
      var writeId, k: nat :| Written(w, p, writeId, k, c);
      assert IdAt(w.s, InWrite(writeId, k)) == Some(c.id);
    }
  }

  /** What a copy that goes leaves behind. */
  lemma {:induction false} GoneIsMissing(b: G.Bounds, x: System, e: Event, p: Path, c: Copy)
    requires Present(View(b, x), p, x.bytes.Keys + Missing(x)) && e.Collect?
    requires c in Gone(e) && Needed(View(b, x), p, c)
    ensures c in MissingAfter(b, x, e)
  {
    NeededIsReferenced(View(b, x), p, c);
  }

  lemma {:induction false} DroppingKeepsNodes(w: P.World, w': P.World, p: Path, gone: set<Copy>,
                                              bytes: map<Copy, seq<Byte>>, lost: set<Copy>, lost': set<Copy>)
    requires NodesOk(w, p, bytes, lost) && w' == w.(horizon := w'.horizon) && w'.horizon >= w.horizon && lost <= lost'
    requires forall c :: c in gone && Needed(w, p, c) ==> c in lost'
    ensures NodesOk(w', p, bytes - gone, lost')
  {
    var bytes' := bytes - gone;
    forall c | c in bytes' && Matters(w, p, c.id) ensures FromBefore(w, w', bytes, bytes', c) {
      assert c in bytes && bytes'[c] == bytes[c];
    }
    QuietKeepsFaithful(w, w', p, bytes, bytes');
    QuietKeepsPresent(w, w', p, bytes.Keys + lost, bytes'.Keys + lost');
    forall id, k: nat | Awaited(w', p, id, k) ensures NoCopies(bytes'.Keys, w'.intents[id].slots[k].newId) {
      assert Awaited(w, p, id, k);
    }
  }

  lemma {:induction false} MoreMade(y: G.System, y': G.System, made: set<Copy>, more: set<Copy>, held: set<Copy>,
        held': set<Copy>)
    requires MadeOk(made, y, held) && y'.s == y.s && y'.used == y.used
    requires forall c :: c in more ==> c.id in y.used && c in held'
    requires forall c :: c in held && c !in held' ==> !Referenced(y.s, c.id)
    ensures MadeOk(made + more, y', held')
  {
  }

  // ----- Whole runs -----

  ghost predicate Happens(b: G.Bounds, x: System, e: Event, p: Path) {
    Allowed(b, x, e) && (e.Command? ==> !Removes(x.y.s, e.op, p))
  }

  ghost function ContentAfter(b: G.Bounds, x: System, e: Event, p: Path, content: seq<Byte>): seq<Byte> {
    if e.Commit? then P.ContentAfter(View(b, x), P.Commit(e.op), p, content) else content
  }

  lemma {:induction false} ClientsEventHappens(b: G.Bounds, x: System, e: Event, p: Path, content: seq<Byte>)
    requires P.Inv(View(b, x), p, content) && Faithful(View(b, x), p, x.bytes)
    requires Happens(b, x, e, p) && ForClients(b, x, e).Some?
    ensures P.Happens(View(b, x), ForClients(b, x, e).value, p)
  {
    if e.Write? {
      FetchedIsStored(b, x, p, content, e.writeId, e.from);
    }
  }

  lemma {:induction false} SameContentAfter(b: G.Bounds, x: System, e: Event, p: Path, content: seq<Byte>)
    requires ForClients(b, x, e).Some?
    ensures ContentAfter(b, x, e, p, content) == P.ContentAfter(View(b, x), ForClients(b, x, e).value, p, content)
  {
  }

  lemma {:induction false} ClientsKeepInv(b: G.Bounds, x: System, e: Event, p: Path, content: seq<Byte>)
    requires Inv(b, x, p, content) && Happens(b, x, e, p)
    ensures P.Inv(ViewAfter(b, x, e), p, ContentAfter(b, x, e, p, content))
  {
    if ForClients(b, x, e).Some? {
      ClientsEventHappens(b, x, e, p, content);
      P.EventKeepsInv(View(b, x), ForClients(b, x, e).value, p, content);
      SameContentAfter(b, x, e, p, content);
    }
  }

  lemma {:induction false} CollectingKeepsNodes(b: G.Bounds, x: System, e: Event, p: Path)
    requires NodesOk(View(b, x), p, x.bytes, Missing(x)) && Allowed(b, x, e) && e.Collect?
    ensures NodesOk(ViewAfter(b, x, e), p, x.bytes - Gone(e), MissingAfter(b, x, e))
  {
    forall c | c in Gone(e) && Needed(View(b, x), p, c) ensures c in MissingAfter(b, x, e) {
      GoneIsMissing(b, x, e, p, c);
    }
    DroppingKeepsNodes(View(b, x), ViewAfter(b, x, e), p, Gone(e), x.bytes, Missing(x), MissingAfter(b, x, e));
  }

  lemma {:induction false} MapOfOne<K, V>(m: map<K, V>, k: K, v: V)
    ensures m + map[k := v] == m[k := v] && map[k := v].Keys == {k}
  {
  }

  lemma {:induction false} WritingKeepsNodes(b: G.Bounds, x: System, e: Event, p: Path, content: seq<Byte>)
    requires P.Inv(View(b, x), p, content) && NodesOk(View(b, x), p, x.bytes, Missing(x))
    requires Allowed(b, x, e) && e.Write?
    ensures NodesOk(ViewAfter(b, x, e), p, x.bytes + Stores(b, x, e), Missing(x) - Stores(b, x, e).Keys)
  {
    var w := View(b, x);
    WriteKeepsNodes(w, p, content, e.writeId, P.BytesOfNext(w, e.writeId, Fetched(b, x, e.writeId, e.from)), x.bytes,
                    Missing(x));
  }

  lemma {:induction false} AbandoningKeepsNodes(b: G.Bounds, x: System, e: Event, p: Path, content: seq<Byte>)
    requires P.Inv(View(b, x), p, content) && NodesOk(View(b, x), p, x.bytes, Missing(x))
    requires Allowed(b, x, e) && e.GiveUp?
    ensures NodesOk(ViewAfter(b, x, e), p, x.bytes + Stores(b, x, e), Missing(x) - Stores(b, x, e).Keys)
  {
    var stored := Stores(b, x, e);
    assert forall c :: c in stored ==> c.id == P.NextSlot(View(b, x), e.writeId).newId;
    GivingUpKeepsNodes(View(b, x), ViewAfter(b, x, e), p, content, e.writeId, stored, x.bytes, Missing(x));
  }

  lemma {:induction false} UploadingKeepsNodes(b: G.Bounds, x: System, e: Event, p: Path, content: seq<Byte>)
    requires P.Inv(View(b, x), p, content) && NodesOk(View(b, x), p, x.bytes, Missing(x))
    requires Allowed(b, x, e) && e.Put?
    ensures NodesOk(ViewAfter(b, x, e), p, x.bytes + Stores(b, x, e), Missing(x) - Stores(b, x, e).Keys)
  {
    MapOfOne(x.bytes, e.copy, e.data);
    PuttingKeepsNodes(View(b, x), p, content, e.copy, e.data, x.bytes, Missing(x));
  }

  lemma {:induction false} CopyingKeepsNodes(b: G.Bounds, x: System, e: Event, p: Path, content: seq<Byte>)
    requires P.Inv(View(b, x), p, content) && NodesOk(View(b, x), p, x.bytes, Missing(x))
    requires Allowed(b, x, e) && e.Replicate?
    ensures NodesOk(ViewAfter(b, x, e), p, x.bytes + Stores(b, x, e), Missing(x) - Stores(b, x, e).Keys)
  {
    var source := Copy(e.copy.id, e.source);
    MapOfOne(x.bytes, e.copy, x.bytes[source]);
    ReplicatingKeepsNodes(View(b, x), p, e.copy, source, x.bytes, Missing(x));
  }

  lemma {:induction false} ApplyingKeepsNodes(b: G.Bounds, x: System, e: Event, p: Path, content: seq<Byte>,
        content': seq<Byte>)
    requires Inv(b, x, p, content) && Allowed(b, x, e) && (e.Command? || e.Begin? || e.Commit?)
    requires P.Inv(ViewAfter(b, x, e), p, content')
    ensures NodesOk(ViewAfter(b, x, e), p, x.bytes, Missing(x))
  {
    if e.Command? {
      forall c | RecordsCopy(x.y.s, e.op, c) ensures c in x.bytes.Keys + Missing(x) {
        RecordedIsThere(b, x, e.op, c);
      }
    }
    CommandKeepsNodes(View(b, x), p, content, content', ForClients(b, x, e).value, x.bytes, Missing(x));
  }

  lemma {:induction false} NodesAfter(b: G.Bounds, x: System, e: Event)
    ensures e.Collect? ==> x.bytes - Gone(e) + Stores(b, x, e) == x.bytes - Gone(e)
    ensures !e.Collect? ==> x.bytes - Gone(e) == x.bytes && MissingAfter(b, x, e) == Missing(x) - Stores(b, x, e).Keys
    ensures e.Command? || e.Begin? || e.Commit? ==>
              x.bytes + Stores(b, x, e) == x.bytes && Missing(x) - Stores(b, x, e).Keys == Missing(x)
  {
  }

  lemma {:induction false} EventKeepsNodes(b: G.Bounds, x: System, e: Event, p: Path, content: seq<Byte>,
        content': seq<Byte>)
    requires Inv(b, x, p, content) && Allowed(b, x, e) && P.Inv(ViewAfter(b, x, e), p, content')
    ensures NodesOk(ViewAfter(b, x, e), p, x.bytes - Gone(e) + Stores(b, x, e), MissingAfter(b, x, e))
  {
    NodesAfter(b, x, e);
    match e
    case Write(_, _) => WritingKeepsNodes(b, x, e, p, content);
    case GiveUp(_, _) => AbandoningKeepsNodes(b, x, e, p, content);
    case Put(_, _) => UploadingKeepsNodes(b, x, e, p, content);
    case Replicate(_, _) => CopyingKeepsNodes(b, x, e, p, content);
    case Collect(_) => CollectingKeepsNodes(b, x, e, p);
    case _ => ApplyingKeepsNodes(b, x, e, p, content, content');
  }

  lemma {:induction false} EventKeepsMade(b: G.Bounds, x: System, e: Event)
    requires G.Inv(b, x.y) && x.bytes.Keys == x.y.copies.Keys && Allowed(b, x, e)
    requires MadeOk(x.made, x.y, x.bytes.Keys + Missing(x))
    ensures MadeOk(MadeAfter(x, e), G.Next(b, x.y, ForCollector(b, x, e)), HeldAfter(b, x, e))
  {
    var y', held := G.Next(b, x.y, ForCollector(b, x, e)), x.bytes.Keys + Missing(x);
    HeldChanges(b, x, e);
    if e.Command? || e.Begin? || e.Commit? {
      CommandKeepsMade(x.y, y', e.op, x.made, held);
    } else {
      RestKeepsMade(b, x, e, held);
    }
  }

  lemma {:induction false} RestKeepsMade(b: G.Bounds, x: System, e: Event, held: set<Copy>)
    requires Allowed(b, x, e) && !e.Command? && !e.Begin? && !e.Commit?
    requires held == x.bytes.Keys + Missing(x) && MadeOk(x.made, x.y, held)
    ensures MadeOk(MadeAfter(x, e), G.Next(b, x.y, ForCollector(b, x, e)), HeldAfter(b, x, e))
  {
    HeldChanges(b, x, e);
    MoreMade(x.y, G.Next(b, x.y, ForCollector(b, x, e)), x.made, if e.Replicate? then {e.copy} else {}, held,
             HeldAfter(b, x, e));
  }

  /** The copies that are there, or missing. */
  ghost function HeldAfter(b: G.Bounds, x: System, e: Event): set<Copy> {
    (x.bytes - Gone(e) + Stores(b, x, e)).Keys + MissingAfter(b, x, e)
  }

  lemma {:induction false} HeldChanges(b: G.Bounds, x: System, e: Event)
    ensures !e.Collect? ==> HeldAfter(b, x, e) == x.bytes.Keys + Missing(x) + Stores(b, x, e).Keys
    ensures e.Command? || e.Begin? || e.Commit? ==> HeldAfter(b, x, e) == x.bytes.Keys + Missing(x)
    ensures e.Collect? ==> forall c :: c in x.bytes.Keys + Missing(x) && c !in HeldAfter(b, x, e) ==>
              !Referenced(x.y.s, c.id)
  {
  }

  lemma {:induction false} SameCopies(b: G.Bounds, x: System, e: Event)
    requires Allowed(b, x, e) && x.bytes.Keys == x.y.copies.Keys
    ensures Next(b, x, e).bytes.Keys == Next(b, x, e).y.copies.Keys
  {
  }

  lemma {:induction false} StaysApart(b: G.Bounds, x: System, e: Event)
    requires Apart(x)
    ensures var bytes' := x.bytes - Gone(e) + Stores(b, x, e);
            && bytes'.Keys !! LostAfter(b, x, e) && bytes'.Keys !! SweptAfter(b, x, e)
            && LostAfter(b, x, e) !! SweptAfter(b, x, e)
  {
  }

  lemma {:induction false} EventKeepsSystem(b: G.Bounds, x: System, e: Event)
    requires SystemOk(b, x) && Allowed(b, x, e)
    ensures SystemOk(b, Next(b, x, e))
  {
    ViewOfNext(b, x, e);
    if ForClients(b, x, e).Some? {
      P.EventKeepsWorld(View(b, x), ForClients(b, x, e).value);
    }
    G.EventKeepsInv(b, x.y, ForCollector(b, x, e));
    EventKeepsMade(b, x, e);
    SameCopies(b, x, e);
    StaysApart(b, x, e);
  }

  lemma {:induction false} EventKeepsInv(b: G.Bounds, x: System, e: Event, p: Path, content: seq<Byte>)
    requires Inv(b, x, p, content) && Happens(b, x, e, p)
    ensures Inv(b, Next(b, x, e), p, ContentAfter(b, x, e, p, content))
  {
    ClientsKeepInv(b, x, e, p, content);
    ViewOfNext(b, x, e);
    EventKeepsSystem(b, x, e);
    EventKeepsNodes(b, x, e, p, content, ContentAfter(b, x, e, p, content));
  }

  ghost predicate AllowedRun(b: G.Bounds, x: System, events: seq<Event>, p: Path)
    decreases |events|
  {
    events == [] || (Happens(b, x, events[0], p) && AllowedRun(b, Next(b, x, events[0]), events[1..], p))
  }

  ghost function End(b: G.Bounds, x: System, events: seq<Event>, p: Path): System
    requires AllowedRun(b, x, events, p)
    decreases |events|
  {
    if events == [] then x else End(b, Next(b, x, events[0]), events[1..], p)
  }

  /** The writes committed on `p`, spliced one after the other in commit order. */
  ghost function Splices(b: G.Bounds, x: System, events: seq<Event>, p: Path, content: seq<Byte>): seq<Byte>
    requires AllowedRun(b, x, events, p)
    decreases |events|
  {
    if events == [] then content
    else Splices(b, Next(b, x, events[0]), events[1..], p, ContentAfter(b, x, events[0], p, content))
  }

  lemma {:induction false} InvRun(b: G.Bounds, x: System, events: seq<Event>, p: Path, content: seq<Byte>)
    requires Inv(b, x, p, content) && AllowedRun(b, x, events, p)
    ensures Inv(b, End(b, x, events, p), p, Splices(b, x, events, p, content))
    decreases |events|
  {
    if events != [] {
      EventKeepsInv(b, x, events[0], p, content);
      InvRun(b, Next(b, x, events[0]), events[1..], p, ContentAfter(b, x, events[0], p, content));
    }
  }

  // ----- Reading -----

  /** One copy of each block, on any nodes that have one. */
  ghost predicate Picks(blocks: seq<BlockRecord>, bytes: map<Copy, seq<Byte>>, picks: seq<Copy>) {
    |picks| == |blocks| && forall i :: 0 <= i < |blocks| ==> picks[i].id == blocks[i].id && picks[i] in bytes
  }

  function Read(bytes: map<Copy, seq<Byte>>, picks: seq<Copy>): (r: seq<seq<Byte>>)
    requires forall c :: c in picks ==> c in bytes
    ensures |r| == |picks| && forall i :: 0 <= i < |r| ==> r[i] == bytes[picks[i]]
  {
    if picks == [] then [] else [bytes[picks[0]]] + Read(bytes, picks[1..])
  }

  lemma {:induction false} ReadsContent(b: G.Bounds, x: System, p: Path, content: seq<Byte>, picks: seq<Copy>)
    requires P.Inv(View(b, x), p, content) && Faithful(View(b, x), p, x.bytes)
    requires Picks(CommittedFile(x.y.s.root, p).value.blocks, x.bytes, picks)
    ensures Flatten(Read(x.bytes, picks)) == content
  {
    var w, file := View(b, x), CommittedFile(x.y.s.root, p).value;
    P.SizesOfPieces(file.blocks, x.store, content, file.blockSize);
    forall i | 0 <= i < |picks| ensures x.bytes[picks[i]] == P.Pieces(file.blocks, x.store)[i] {
      assert P.Protected(w, p, InFile(p, i)) && IdAt(w.s, InFile(p, i)) == Some(picks[i].id);
    }
    assert Read(x.bytes, picks) == P.Pieces(file.blocks, x.store);
  }

  /** Over any run of the whole system, from whichever nodes its blocks are read, the file is
      the sequential application of the writes that committed, whatever repairs there are. */
  lemma {:induction false} EveryReplicaHoldsTheContent(b: G.Bounds, x: System, events: seq<Event>, p: Path,
        content: seq<Byte>)
    requires Inv(b, x, p, content) && AllowedRun(b, x, events, p)
    ensures var end := End(b, x, events, p);
            && CommittedFile(end.y.s.root, p).Ok?
            && forall picks :: Picks(CommittedFile(end.y.s.root, p).value.blocks, end.bytes, picks) ==>
                 Flatten(Read(end.bytes, picks)) == Splices(b, x, events, p, content)
  {
    InvRun(b, x, events, p, content);
    var end := End(b, x, events, p);
    forall picks | Picks(CommittedFile(end.y.s.root, p).value.blocks, end.bytes, picks)
      ensures Flatten(Read(end.bytes, picks)) == Splices(b, x, events, p, content)
    {
      ReadsContent(b, end, p, Splices(b, x, events, p, content), picks);
    }
  }

  // ----- Where runs start -----

  /** A file whose blocks have, on every node that holds one, the bytes last sent. */
  lemma {:induction false} StoredFileStarts(b: G.Bounds, x: System, p: Path, content: seq<Byte>)
    requires SystemOk(b, x) && P.Inv(View(b, x), p, content) && forall id :: !P.Viable(x.y.s, p, id)
    requires forall c: Copy :: NamedIn(x.y.s, p, c.id, c.address) ==> c in x.bytes.Keys + Missing(x)
    requires var blocks := CommittedFile(x.y.s.root, p).value.blocks;
             forall c, i :: c in x.bytes && 0 <= i < |blocks| && c.id == blocks[i].id ==>
               c.id in x.store && x.bytes[c] == x.store[c.id]
    ensures Inv(b, x, p, content)
  {
    var w := View(b, x);
    forall c | c in x.bytes && Matters(w, p, c.id) && c.id in w.store ensures x.bytes[c] == x.store[c.id] {
      var a :| P.Protected(w, p, a) && IdAt(w.s, a) == Some(c.id);
      assert a == InFile(p, a.i);
    }
    forall c | Needed(w, p, c) ensures c in x.bytes.Keys + Missing(x) {
      assert NamedIn(w.s, p, c.id, c.address);
    }
  }
}
