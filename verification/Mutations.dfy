/** The metadata state machine: the state the ControlNodes replicate and its 18
    mutations, each a function of the state and of the command's arguments.
    Leader time travels in the command; nothing here reads a clock. */
module Mutations {
  import opened Common
  import opened Paths
  import opened Tree
  import opened WritePlan

  datatype LockMode = Shared | Exclusive

  datatype Holder = Holder(owner: string, expires: real)

  datatype LockState = LockState(mode: LockMode, holders: map<string, Holder>)

  datatype WriteSlot = WriteSlot(index: nat, blockId: string, addresses: seq<string>, size: int)

  /** A copy-on-write reservation: its new blocks are not visible yet. */
  datatype Reservation = Reservation(
    path: Path, baseVersion: nat, lockId: string, blockSize: nat, slots: seq<WriteSlot>, expires: real)

  datatype User = User(hash: string, salt: string, groups: seq<string>, isAdmin: bool)

  /** Lock and reservation tables are indexed by the parsed path, which identifies the
      same files as the canonical text (`Paths.CanonicalKeyIsThePath`). */
  datatype State = State(
    root: Directory, locks: map<Path, LockState>, writes: map<string, Reservation>, users: map<string, User>)

  const INITIAL: State :=
    State(DirNode(map[], Attributes(DEFAULT_OWNER, DEFAULT_OWNER, ROOT_MODE)), map[], map[], map[])

  datatype Placement = Placement(id: string, addresses: seq<string>)

  datatype Proposal = Proposal(index: int, id: string, addresses: seq<string>)

  datatype Confirmed = Confirmed(index: int, id: string, checksum: string, size: int)

  /** What BeginWrite tells the client about one block: what to copy and where to write. */
  datatype SlotView = SlotView(
    index: nat, oldId: string, oldSize: int, oldAddresses: seq<string>,
    newId: string, newAddresses: seq<string>, newSize: int)

  datatype Value =
    | Unit
    | LockId(lockId: string)
    | Removed(blocks: seq<BlockRecord>)
    | Uploading(placements: seq<Placement>, stale: seq<BlockRecord>)
    | Writing(writeId: string, version: nat, blockSize: nat, slots: seq<SlotView>)
    | Published(newVersion: nat, replaced: seq<BlockRecord>)
    | Aborted(reserved: seq<BlockRecord>)

  type Outcome = (State, Result<Value>)

  datatype Op =
    | MakeDirOp(path: string, caller: Option<Caller>)
    | RemoveDirOp(path: string, caller: Option<Caller>)
    | RemoveFileOp(path: string, now: real, caller: Option<Caller>)
    | BeginUploadOp(path: string, placements: seq<Placement>, now: real, lease: real, blockSize: nat,
                    caller: Option<Caller>)
    | ConfirmBlockOp(path: string, blockId: string, checksum: string, size: int, now: real, lease: real,
                     caller: Option<Caller>)
    | CompleteUploadOp(path: string, caller: Option<Caller>)
    | AbortUploadOp(path: string, caller: Option<Caller>)
    | AcquireLockOp(path: string, lockId: string, owner: string, mode: string, now: real, lease: real,
                    caller: Option<Caller>)
    | RenewLockOp(path: string, lockId: string, now: real, lease: real)
    | ReleaseLockOp(path: string, lockId: string, now: real)
    | UpdateReplicasOp(path: string, blockId: string, expected: seq<string>, replacement: seq<string>)
    | BeginWriteOp(path: string, writeId: string, lockId: string, baseVersion: int, offset: int, length: int,
                   proposals: seq<Proposal>, now: real, lease: real, defaultBlockSize: nat, caller: Option<Caller>)
    | CommitWriteOp(path: string, writeId: string, lockId: string, baseVersion: int, confirmed: seq<Confirmed>,
                    now: real, caller: Option<Caller>)
    | AbortWriteOp(path: string, writeId: string, lockId: string, now: real)
    | CreateUserOp(username: string, hash: string, salt: string, groups: seq<string>, isAdmin: bool)
    | ChangePasswordOp(username: string, hash: string, salt: string)
    | ChmodOp(path: string, newMode: int, caller: Option<Caller>)
    | ChownOp(path: string, newOwner: string, newGroup: string, caller: Option<Caller>)

  /** Everything but the tree is as before. */
  predicate OnlyTreeChanged(s: State, s': State) {
    s'.locks == s.locks && s'.writes == s.writes && s'.users == s.users
  }

  /** Reservations may only have disappeared. */
  predicate ReservationsOnlyDropped(s: State, s': State) {
    forall w :: w in s'.writes ==> w in s.writes && s'.writes[w] == s.writes[w]
  }

  // ----- Namespace -----

  function MakeDir(s: State, path: string, caller: Option<Caller>): (r: Outcome)
    ensures OnlyTreeChanged(s, r.0)
  {
    var parsed := Parts(path);
    if parsed.Err? then (s, Err(parsed.error))
    else if parsed.value == [] then (s, Err(PathExists))
    else
      var parts := parsed.value;
      var walk := WalkTo(s.root, Front(parts));
      if walk.Err? then (s, Err(walk.error))
      else if !Allows(walk.value.attributes, caller, WRITE) then (s, Err(AccessDenied))
      else if Last(parts) in walk.value.children then (s, Err(PathExists))
      else
        ParentFromWalk(s.root, parts);
        (s.(root := Put(s.root, parts, DirNode(map[], Ownership(caller, DIR_MODE)))), Ok(Unit))
  }

  function RemoveDir(s: State, path: string, caller: Option<Caller>): (r: Outcome)
    ensures OnlyTreeChanged(s, r.0)
  {
    var parsed := Parts(path);
    if parsed.Err? then (s, Err(parsed.error))
    else if parsed.value == [] then (s, Err(InvalidPath))
    else
      var parts := parsed.value;
      var walk := WalkTo(s.root, Front(parts));
      if walk.Err? then (s, Err(walk.error))
      else if !Allows(walk.value.attributes, caller, WRITE) then (s, Err(AccessDenied))
      else if Last(parts) !in walk.value.children then (s, Err(PathNotFound))
      else if !walk.value.children[Last(parts)].DirNode? then (s, Err(NotADirectory))
      else if walk.value.children[Last(parts)].children != map[] then (s, Err(NotEmpty))
      else
        ParentFromWalk(s.root, parts);
        (s.(root := Delete(s.root, parts)), Ok(Unit))
  }

  function RemoveFile(s: State, path: string, now: real, caller: Option<Caller>): (r: Outcome)
    ensures r.0 == s.(root := r.0.root, locks := r.0.locks)
    ensures r.0.locks == s.locks || (Parts(path).Ok? && r.0.locks == CleanLocks(s.locks, Parts(path).value, now))
  {
    var parsed := Parts(path);
    if parsed.Err? then (s, Err(parsed.error))
    else if parsed.value == [] then (s, Err(InvalidPath))
    else
      var parts := parsed.value;
      var walk := WalkTo(s.root, Front(parts));
      if walk.Err? then (s, Err(walk.error))
      else if !Allows(walk.value.attributes, caller, WRITE) then (s, Err(AccessDenied))
      else if Last(parts) !in walk.value.children then (s, Err(PathNotFound))
      else
        var entry := walk.value.children[Last(parts)];
        if !entry.FileNode? then (s, Err(NotAFile))
        else if !entry.file.committed then (s, Err(PathNotFound))
        else
          var s' := s.(locks := CleanLocks(s.locks, parts, now));
          if parts in s'.locks then (s', Err(Conflict))
          else
            ParentFromWalk(s.root, parts);
            (s'.(root := Delete(s.root, parts)), Ok(Removed(entry.file.blocks)))
  }

  // ----- Locks -----

  function LiveHolders(holders: map<string, Holder>, now: real): map<string, Holder> {
    map lockId | lockId in holders && holders[lockId].expires > now :: holders[lockId]
  }

  /** `_cleanup_expired_locks`: drops the holders of one path whose lease is over. */
  function CleanLocks(locks: map<Path, LockState>, path: Path, now: real): map<Path, LockState> {
    if path !in locks then locks
    else
      var live := LiveHolders(locks[path].holders, now);
      if live == map[] then locks - {path} else locks[path := locks[path].(holders := live)]
  }

  function CommittedFile(root: Directory, path: Path): Result<FileRecord> {
    var file := FileAt(root, path);
    if file.Some? && file.value.committed then Ok(file.value) else Err(PathNotFound)
  }

  function ModeOf(text: string): Option<LockMode> {
    if text == "r" then Some(Shared) else if text == "w" then Some(Exclusive) else None
  }

  function AcquireLock(s: State, path: string, lockId: string, owner: string, mode: string, now: real, lease: real,
                       caller: Option<Caller>): (r: Outcome)
    ensures r.0 == s.(locks := r.0.locks)
  {
    var parsed := Parts(path);
    var wanted := ModeOf(mode);
    if parsed.Err? then (s, Err(parsed.error))
    else if wanted.None? || lease <= 0.0 then (s, Err(InvalidPath))
    else
      var parts := parsed.value;
      var found := CommittedFile(s.root, parts);
      if found.Err? then (s, Err(found.error))
      else if !Allows(found.value.attributes, caller, if wanted.value.Shared? then READ else WRITE) then
        (s, Err(AccessDenied))
      else
        var s' := s.(locks := CleanLocks(s.locks, parts, now));
        if parts in s'.locks && (s'.locks[parts].mode.Exclusive? || wanted.value.Exclusive?) then (s', Err(Conflict))
        else
          var lock := if parts in s'.locks then s'.locks[parts] else LockState(wanted.value, map[]);
          if lockId in lock.holders then (s', Err(Conflict))
          else
            var granted := lock.(holders := lock.holders[lockId := Holder(owner, now + lease)]);
            (s'.(locks := s'.locks[parts := granted]), Ok(LockId(lockId)))
  }

  function RenewLock(s: State, path: string, lockId: string, now: real, lease: real): (r: Outcome)
    ensures r.0 == s.(locks := r.0.locks)
  {
    var parsed := Parts(path);
    if parsed.Err? then (s, Err(parsed.error))
    else if lease <= 0.0 then (s, Err(InvalidPath))
    else
      var parts := parsed.value;
      var found := CommittedFile(s.root, parts);
      if found.Err? then (s, Err(found.error))
      else
        var s' := s.(locks := CleanLocks(s.locks, parts, now));
        if parts !in s'.locks || lockId !in s'.locks[parts].holders then (s', Err(Conflict))
        else
          var lock := s'.locks[parts];
          var holder := lock.holders[lockId].(expires := now + lease);
          (s'.(locks := s'.locks[parts := lock.(holders := lock.holders[lockId := holder])]), Ok(Unit))
  }

  function ReleaseLock(s: State, path: string, lockId: string, now: real): (r: Outcome)
    ensures r.0 == s.(locks := r.0.locks)
  {
    var parsed := Parts(path);
    if parsed.Err? then (s, Err(parsed.error))
    else
      var parts := parsed.value;
      var found := CommittedFile(s.root, parts);
      if found.Err? then (s, Err(found.error))
      else
        var s' := s.(locks := CleanLocks(s.locks, parts, now));
        if parts !in s'.locks then (s', Ok(Unit))
        else if lockId !in s'.locks[parts].holders then (s', Err(Conflict))
        else
          var left := s'.locks[parts].holders - {lockId};
          (s'.(locks := if left == map[] then s'.locks - {parts}
                        else s'.locks[parts := s'.locks[parts].(holders := left)]),
           Ok(Unit))
  }

  // ----- Permissions and users -----

  /** `_get_visible_node`: a pending upload is invisible. */
  function VisibleNode(root: Directory, path: Path): Result<Node> {
    var found := Lookup(root, path);
    if found.None? || (found.value.FileNode? && !found.value.file.committed) then Err(PathNotFound)
    else Ok(found.value)
  }

  function Relabel(root: Directory, path: Path, attributes: Attributes): Directory
    requires Lookup(root, path).Some?
  {
    ParentFromLookup(root, path);
    Put(root, path, WithAttributes(Lookup(root, path).value, attributes))
  }

  function Chmod(s: State, path: string, newMode: int, caller: Option<Caller>): (r: Outcome)
    ensures OnlyTreeChanged(s, r.0)
  {
    var parsed := Parts(path);
    if parsed.Err? then (s, Err(parsed.error))
    else
      var found := VisibleNode(s.root, parsed.value);
      if found.Err? then (s, Err(found.error))
      else
        var old_ := AttributesOf(found.value);
        if !OwnerOrAdmin(old_, caller) then (s, Err(AccessDenied))
        else if !(0 <= newMode <= MAX_MODE) then (s, Err(InvalidPath))
        else (s.(root := Relabel(s.root, parsed.value, old_.(mode := newMode))), Ok(Unit))
  }

  predicate LowerCase(c: char) { 'a' <= c <= 'z' }

  predicate Digit(c: char) { '0' <= c <= '9' }

  /** User and group names, Unix style: at most 32 characters, and no colon. */
  predicate ValidName(name: string) {
    && 1 <= |name| <= 32
    && (LowerCase(name[0]) || name[0] == '_')
    && forall i :: 1 <= i < |name| ==> LowerCase(name[i]) || Digit(name[i]) || name[i] == '_' || name[i] == '-'
  }

  function Chown(s: State, path: string, newOwner: string, newGroup: string, caller: Option<Caller>): (r: Outcome)
    ensures OnlyTreeChanged(s, r.0)
  {
    var parsed := Parts(path);
    if parsed.Err? then (s, Err(parsed.error))
    else
      var found := VisibleNode(s.root, parsed.value);
      if found.Err? then (s, Err(found.error))
      else if newOwner == "" && newGroup == "" then (s, Err(InvalidPath))
      else
        var old_ := AttributesOf(found.value);
        if caller.Some? && !caller.value.isAdmin
           && (newOwner != ""
               || (newGroup != ""
                   && !(caller.value.username == old_.owner && newGroup in caller.value.groups)))
        then (s, Err(AccessDenied))
        else if newOwner != "" && newOwner !in s.users then (s, Err(PathNotFound))
        else if newGroup != "" && !ValidName(newGroup) then (s, Err(InvalidPath))
        else
          var owned := old_.(owner := if newOwner != "" then newOwner else old_.owner,
                             group := if newGroup != "" then newGroup else old_.group);
          (s.(root := Relabel(s.root, parsed.value, owned)), Ok(Unit))
  }

  function CreateUser(s: State, username: string, hash: string, salt: string, groups: seq<string>,
        isAdmin: bool): (r: Outcome)
    ensures r.0 == s.(users := r.0.users)
  {
    if !ValidName(username) || (exists i :: 0 <= i < |groups| && !ValidName(groups[i])) then (s, Err(InvalidPath))
    else if username in s.users then (s, Err(PathExists))
    else (s.(users := s.users[username := User(hash, salt, groups, isAdmin)]), Ok(Unit))
  }

  function ChangePassword(s: State, username: string, hash: string, salt: string): (r: Outcome)
    ensures r.0 == s.(users := r.0.users)
  {
    if username !in s.users then (s, Err(PathNotFound))
    else (s.(users := s.users[username := s.users[username].(hash := hash, salt := salt)]), Ok(Unit))
  }

  // ----- Uploads -----

  function NewBlocks(placements: seq<Placement>): (r: seq<BlockRecord>)
    ensures |r| == |placements|
    ensures forall i :: 0 <= i < |r| ==> r[i] == BlockRecord(placements[i].id, placements[i].addresses, "", 0, false)
  {
    if placements == [] then []
    else [BlockRecord(placements[0].id, placements[0].addresses, "", 0, false)] + NewBlocks(placements[1..])
  }

  function LeaseFrom(now: real, lease: real): real {
    if lease != 0.0 then now + lease else 0.0
  }

  predicate LeaseExpired(file: FileRecord, now: real) {
    0.0 < file.leaseExpiresAt <= now
  }

  function BeginUpload(s: State, path: string, placements: seq<Placement>, now: real, lease: real, blockSize: nat,
                       caller: Option<Caller>): (r: Outcome)
    ensures OnlyTreeChanged(s, r.0)
  {
    var parsed := Parts(path);
    if parsed.Err? then (s, Err(parsed.error))
    else if parsed.value == [] then (s, Err(InvalidPath))
    else
      var parts := parsed.value;
      var grown := Grow(s.root, Front(parts), caller);
      if grown.Err? then (s, Err(grown.error))
      else
        var s' := s.(root := grown.value);
        var existing := Lookup(s'.root, parts);
        if existing.Some?
           && !(existing.value.FileNode? && !existing.value.file.committed && LeaseExpired(existing.value.file, now))
        then (s', Err(PathExists))
        else
          GrowKeepsFiles(s.root, Front(parts), caller, []);
          ParentFromWalk(s'.root, parts);
          var file := FileRecord(false, NewBlocks(placements), LeaseFrom(now, lease), 0, blockSize,
                                 Ownership(caller, FILE_MODE));
          (s'.(root := Put(s'.root, parts, FileNode(file))),
           Ok(Uploading(placements, if existing.Some? then existing.value.file.blocks else [])))
  }

  function PendingFile(root: Directory, path: Path): Result<FileRecord> {
    var file := FileAt(root, path);
    if file.Some? && !file.value.committed then Ok(file.value) else Err(PathNotFound)
  }

  /** The first block with the given id; `|blocks|` when there is none. */
  function IndexOfBlock(blocks: seq<BlockRecord>, id: string): (r: nat)
    ensures r <= |blocks|
    ensures r < |blocks| ==> blocks[r].id == id
    ensures forall i :: 0 <= i < r ==> blocks[i].id != id
  {
    if blocks == [] || blocks[0].id == id then 0 else 1 + IndexOfBlock(blocks[1..], id)
  }

  function PutFile(root: Directory, path: Path, file: FileRecord): Directory
    requires FileAt(root, path).Some?
  {
    ParentFromLookup(root, path);
    Put(root, path, FileNode(file))
  }

  function ConfirmBlock(s: State, path: string, blockId: string, checksum: string, size: int, now: real, lease: real,
                        caller: Option<Caller>): (r: Outcome)
    ensures OnlyTreeChanged(s, r.0)
  {
    var parsed := Parts(path);
    if parsed.Err? then (s, Err(parsed.error))
    else
      var found := PendingFile(s.root, parsed.value);
      if found.Err? then (s, Err(found.error))
      else
        var file := found.value;
        var i := IndexOfBlock(file.blocks, blockId);
        if !OwnerOrAdmin(file.attributes, caller) then (s, Err(AccessDenied))
        else if i == |file.blocks| then (s, Err(PathNotFound))
        else
          var block := file.blocks[i].(checksum := checksum, size := size, confirmed := true);
          var expires := if lease != 0.0 then now + lease else file.leaseExpiresAt;
          var file' := file.(blocks := file.blocks[i := block], leaseExpiresAt := expires);
          (s.(root := PutFile(s.root, parsed.value, file')), Ok(Unit))
  }

  function CompleteUpload(s: State, path: string, caller: Option<Caller>): (r: Outcome)
    ensures OnlyTreeChanged(s, r.0)
  {
    var parsed := Parts(path);
    if parsed.Err? then (s, Err(parsed.error))
    else
      var found := PendingFile(s.root, parsed.value);
      if found.Err? then (s, Err(found.error))
      else if !OwnerOrAdmin(found.value.attributes, caller) then (s, Err(AccessDenied))
      else if exists i :: 0 <= i < |found.value.blocks| && !found.value.blocks[i].confirmed then
        (s, Err(InvalidPath))
      else (s.(root := PutFile(s.root, parsed.value, found.value.(committed := true))), Ok(Unit))
  }

  function AbortUpload(s: State, path: string, caller: Option<Caller>): (r: Outcome)
    ensures OnlyTreeChanged(s, r.0)
  {
    var parsed := Parts(path);
    if parsed.Err? then (s, Err(parsed.error))
    else if parsed.value == [] then (s, Err(InvalidPath))
    else
      var parts := parsed.value;
      var walk := WalkTo(s.root, Front(parts));
      if walk.Err? then (s, Err(walk.error))
      else if Last(parts) !in walk.value.children then (s, Err(PathNotFound))
      else
        var entry := walk.value.children[Last(parts)];
        if !entry.FileNode? || entry.file.committed then (s, Err(PathNotFound))
        else if !OwnerOrAdmin(entry.file.attributes, caller) then (s, Err(AccessDenied))
        else
          ParentFromWalk(s.root, parts);
          (s.(root := Delete(s.root, parts)), Ok(Unit))
  }

  // ----- Copy-on-write -----

  /** `_block_size_of`: files older than the stored block size infer it from a full block. */
  function BlockSizeOf(file: FileRecord, default_: nat): nat {
    if file.blockSize != 0 then file.blockSize
    else if |file.blocks| > 1 then Max(file.blocks[0].size, 0)
    else default_
  }

  function BlockSizes(blocks: seq<BlockRecord>): (r: seq<int>)
    ensures |r| == |blocks| && forall i :: 0 <= i < |blocks| ==> r[i] == blocks[i].size
  {
    if blocks == [] then [] else [blocks[0].size] + BlockSizes(blocks[1..])
  }

  predicate HoldsWriteLock(locks: map<Path, LockState>, path: Path, lockId: string) {
    path in locks && locks[path].mode.Exclusive? && lockId in locks[path].holders
  }

  /** An expired reservation ceases to exist; its blocks are left to the collector. */
  function CleanWrites(writes: map<string, Reservation>, now: real): map<string, Reservation> {
    map writeId | writeId in writes && writes[writeId].expires > now :: writes[writeId]
  }

  predicate ProposalsFit(plan: seq<PlanSlot>, proposals: seq<Proposal>) {
    |plan| == |proposals| && forall k :: 0 <= k < |plan| ==> plan[k].index == proposals[k].index
  }

  function ReservedSlots(plan: seq<PlanSlot>, proposals: seq<Proposal>): (r: seq<WriteSlot>)
    requires |plan| == |proposals|
    ensures |r| == |plan|
    ensures forall k :: 0 <= k < |r| ==>
      r[k] == WriteSlot(plan[k].index, proposals[k].id, proposals[k].addresses, plan[k].size)
  {
    if plan == [] then []
    else [WriteSlot(plan[0].index, proposals[0].id, proposals[0].addresses, plan[0].size)]
         + ReservedSlots(plan[1..], proposals[1..])
  }

  function Describe(blocks: seq<BlockRecord>, slots: seq<WriteSlot>): (r: seq<SlotView>)
    ensures |r| == |slots|
    ensures forall k :: 0 <= k < |r| ==> r[k] == DescribeSlot(blocks, slots[k])
  {
    if slots == [] then [] else [DescribeSlot(blocks, slots[0])] + Describe(blocks, slots[1..])
  }

  function DescribeSlot(blocks: seq<BlockRecord>, slot: WriteSlot): SlotView {
    if slot.index < |blocks| then
      SlotView(slot.index, blocks[slot.index].id, blocks[slot.index].size, blocks[slot.index].addresses,
               slot.blockId, slot.addresses, slot.size)
    else SlotView(slot.index, "", 0, [], slot.blockId, slot.addresses, slot.size)
  }

  function BeginWrite(s: State, path: string, writeId: string, lockId: string, baseVersion: int, offset: int,
                      length: int, proposals: seq<Proposal>, now: real, lease: real, defaultBlockSize: nat,
                      caller: Option<Caller>): (r: Outcome)
    ensures r.0 == s.(locks := r.0.locks, writes := r.0.writes)
    ensures forall w :: w in r.0.writes ==>
              (w in s.writes && r.0.writes[w] == s.writes[w]) || (r.1.Ok? && w == writeId)
    ensures r.0.locks == s.locks || (Parts(path).Ok? && r.0.locks == CleanLocks(s.locks, Parts(path).value, now))
  {
    var parsed := Parts(path);
    if parsed.Err? then (s, Err(parsed.error))
    else
      var parts := parsed.value;
      var found := CommittedFile(s.root, parts);
      if found.Err? then (s, Err(found.error))
      else if !Allows(found.value.attributes, caller, WRITE) then (s, Err(AccessDenied))
      else
        var file := found.value;
        var s' := s.(locks := CleanLocks(s.locks, parts, now));
        if !HoldsWriteLock(s'.locks, parts, lockId) then (s', Err(Conflict))
        else
          var s'' := s'.(writes := CleanWrites(s'.writes, now));
          if writeId in s''.writes || file.version != baseVersion then (s'', Err(Conflict))
          else
            var blockSize := BlockSizeOf(file, defaultBlockSize);
            var plan := PlanWriteSlots(BlockSizes(file.blocks), blockSize, offset, length);
            if plan.Err? then (s'', Err(plan.error))
            else if !ProposalsFit(plan.value, proposals) then (s'', Err(Conflict))
            else
              var slots := ReservedSlots(plan.value, proposals);
              var reservation := Reservation(parts, file.version, lockId, blockSize, slots, now + lease);
              (s''.(writes := s''.writes[writeId := reservation]),
               Ok(Writing(writeId, file.version, blockSize, Describe(file.blocks, slots))))
  }

  predicate ConfirmsReservation(confirmed: seq<Confirmed>, slots: seq<WriteSlot>) {
    && |confirmed| == |slots|
    && forall k :: 0 <= k < |slots| ==>
         confirmed[k].index == slots[k].index && confirmed[k].id == slots[k].blockId
         && confirmed[k].size == slots[k].size
  }

  function PublishedBlock(slot: WriteSlot, confirmed: Confirmed): BlockRecord {
    BlockRecord(slot.blockId, slot.addresses, confirmed.checksum, confirmed.size, true)
  }

  /** The block list after publishing the slots in order, and the blocks they replaced. */
  function Publish(blocks: seq<BlockRecord>, slots: seq<WriteSlot>, confirmed: seq<Confirmed>)
    : (r: (seq<BlockRecord>, seq<BlockRecord>))
    requires |slots| == |confirmed|
    decreases |slots|
  {
    if slots == [] then (blocks, [])
    else
      var block := PublishedBlock(slots[0], confirmed[0]);
      if slots[0].index < |blocks| then
        var rest := Publish(blocks[slots[0].index := block], slots[1..], confirmed[1..]);
        (rest.0, [blocks[slots[0].index]] + rest.1)
      else Publish(blocks + [block], slots[1..], confirmed[1..])
  }

  function CommitWrite(s: State, path: string, writeId: string, lockId: string, baseVersion: int,
                       confirmed: seq<Confirmed>, now: real, caller: Option<Caller>): (r: Outcome)
    ensures r.0.users == s.users && ReservationsOnlyDropped(s, r.0)
    ensures r.0.locks == s.locks || (Parts(path).Ok? && r.0.locks == CleanLocks(s.locks, Parts(path).value, now))
  {
    var parsed := Parts(path);
    if parsed.Err? then (s, Err(parsed.error))
    else
      var parts := parsed.value;
      var found := CommittedFile(s.root, parts);
      if found.Err? then (s, Err(found.error))
      else if !Allows(found.value.attributes, caller, WRITE) then (s, Err(AccessDenied))
      else
        var file := found.value;
        var s' := s.(writes := CleanWrites(s.writes, now));
        if writeId !in s'.writes || s'.writes[writeId].path != parts || s'.writes[writeId].lockId != lockId
        then (s', Err(Conflict))
        else
          var reservation := s'.writes[writeId];
          var s'' := s'.(locks := CleanLocks(s'.locks, parts, now));
          if !HoldsWriteLock(s''.locks, parts, lockId)
             || baseVersion != reservation.baseVersion || file.version != reservation.baseVersion
             || !ConfirmsReservation(confirmed, reservation.slots)
          then (s'', Err(Conflict))
          else
            var published := Publish(file.blocks, reservation.slots, confirmed);
            var file' := file.(blocks := published.0, version := file.version + 1, blockSize := reservation.blockSize);
            (s''.(root := PutFile(s.root, parts, file'), writes := s''.writes - {writeId}),
             Ok(Published(file'.version, published.1)))
  }

  function ReservedBlocks(slots: seq<WriteSlot>): (r: seq<BlockRecord>)
    ensures |r| == |slots|
    ensures forall k :: 0 <= k < |r| ==>
      r[k] == BlockRecord(slots[k].blockId, slots[k].addresses, "", slots[k].size, false)
  {
    if slots == [] then []
    else [BlockRecord(slots[0].blockId, slots[0].addresses, "", slots[0].size, false)] + ReservedBlocks(slots[1..])
  }

  function AbortWrite(s: State, path: string, writeId: string, lockId: string, now: real): (r: Outcome)
    ensures r.0 == s.(writes := r.0.writes) && ReservationsOnlyDropped(s, r.0)
  {
    var parsed := Parts(path);
    if parsed.Err? then (s, Err(parsed.error))
    else
      var s' := s.(writes := CleanWrites(s.writes, now));
      if writeId !in s'.writes || s'.writes[writeId].path != parsed.value then (s', Ok(Aborted([])))
      else if s'.writes[writeId].lockId != lockId then (s', Err(Conflict))
      else (s'.(writes := s'.writes - {writeId}), Ok(Aborted(ReservedBlocks(s'.writes[writeId].slots))))
  }

  function UpdateReplicas(s: State, path: string, blockId: string, expected: seq<string>,
        replacement: seq<string>): (r: Outcome)
    ensures OnlyTreeChanged(s, r.0)
  {
    var parsed := Parts(path);
    if parsed.Err? then (s, Err(parsed.error))
    else
      var found := CommittedFile(s.root, parsed.value);
      if found.Err? then (s, Err(found.error))
      else
        var file := found.value;
        var i := IndexOfBlock(file.blocks, blockId);
        if i == |file.blocks| then (s, Err(PathNotFound))
        else if file.blocks[i].addresses != expected then (s, Err(Conflict))
        else
          var blocks := file.blocks[i := file.blocks[i].(addresses := replacement)];
          (s.(root := PutFile(s.root, parsed.value, file.(blocks := blocks))), Ok(Unit))
  }

  // ----- The whole machine -----

  /** One replicated command. */
  function Step(s: State, op: Op): Outcome {
    match op
    case MakeDirOp(path, caller) => MakeDir(s, path, caller)
    case RemoveDirOp(path, caller) => RemoveDir(s, path, caller)
    case RemoveFileOp(path, now, caller) => RemoveFile(s, path, now, caller)
    case BeginUploadOp(path, placements, now, lease, blockSize, caller) =>
      BeginUpload(s, path, placements, now, lease, blockSize, caller)
    case ConfirmBlockOp(path, blockId, checksum, size, now, lease, caller) =>
      ConfirmBlock(s, path, blockId, checksum, size, now, lease, caller)
    case CompleteUploadOp(path, caller) => CompleteUpload(s, path, caller)
    case AbortUploadOp(path, caller) => AbortUpload(s, path, caller)
    case AcquireLockOp(path, lockId, owner, mode, now, lease, caller) =>
      AcquireLock(s, path, lockId, owner, mode, now, lease, caller)
    case RenewLockOp(path, lockId, now, lease) => RenewLock(s, path, lockId, now, lease)
    case ReleaseLockOp(path, lockId, now) => ReleaseLock(s, path, lockId, now)
    case UpdateReplicasOp(path, blockId, expected, replacement) =>
      UpdateReplicas(s, path, blockId, expected, replacement)
    case BeginWriteOp(path, writeId, lockId, baseVersion, offset, length, proposals, now, lease, default_, caller) =>
      BeginWrite(s, path, writeId, lockId, baseVersion, offset, length, proposals, now, lease, default_, caller)
    case CommitWriteOp(path, writeId, lockId, baseVersion, confirmed, now, caller) =>
      CommitWrite(s, path, writeId, lockId, baseVersion, confirmed, now, caller)
    case AbortWriteOp(path, writeId, lockId, now) => AbortWrite(s, path, writeId, lockId, now)
    case CreateUserOp(username, hash, salt, groups, isAdmin) => CreateUser(s, username, hash, salt, groups, isAdmin)
    case ChangePasswordOp(username, hash, salt) => ChangePassword(s, username, hash, salt)
    case ChmodOp(path, newMode, caller) => Chmod(s, path, newMode, caller)
    case ChownOp(path, newOwner, newGroup, caller) => Chown(s, path, newOwner, newGroup, caller)
  }

  /** The state after a sequence of commands. */
  function Run(s: State, ops: seq<Op>): State
    decreases |ops|
  {
    if ops == [] then s else Run(Step(s, ops[0]).0, ops[1..])
  }
}
