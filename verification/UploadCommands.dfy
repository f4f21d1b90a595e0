/** The four upload commands from outside: when each succeeds, which error comes first
    otherwise, and what the file is afterwards, block by block. */
module UploadCommands {
  import opened Common
  import opened Paths
  import opened Tree
  import opened Mutations
  import opened Entries
  import opened NamespaceCommands

  // ----- Opening -----

  /** A pending upload whose lease is over; one without a lease never is. */
  predicate Stale(node: Node, p: Path, now: real) {
    Pending(node, p) && 0.0 < FileOf(node, p).leaseExpiresAt && FileOf(node, p).leaseExpiresAt <= now
  }

  ghost function BeginUploadError(s: State, op: Op): Option<Error>
    requires op.BeginUploadOp?
  {
    if Parts(op.path).Err? then Some(InvalidPath)
    else
      var p := Parts(op.path).value;
      if p == [] then Some(InvalidPath)
      else if FileInTheWay(s.root, Front(p)) then Some(NotADirectory)
      else if !MayGrow(s.root, Front(p), op.caller) then Some(AccessDenied)
      else if EntryAt(s.root, p).Some? && !Stale(s.root, p, op.now) then Some(PathExists)
      else None
  }

  /** The new file: every block unconfirmed, where it was placed, in the order given. */
  ghost predicate Opens(file: FileRecord, op: Op)
    requires op.BeginUploadOp?
  {
    && !file.committed && file.version == 0 && file.blockSize == op.blockSize
    && file.leaseExpiresAt == (if op.lease == 0.0 then 0.0 else op.now + op.lease)
    && file.attributes == CreatedBy(op.caller, 0x1A4) && |file.blocks| == |op.placements|
    && forall i :: 0 <= i < |file.blocks| ==>
         file.blocks[i] == BlockRecord(op.placements[i].id, op.placements[i].addresses, "", 0, false)
  }

  /** The entries after an upload opens: the file, and the directories that were missing. */
  ghost predicate OpenedAt(root: Node, root': Node, op: Op, p: Path)
    requires op.BeginUploadOp? && p != []
  {
    && EntryAt(root', p).Some? && EntryAt(root', p).value.File? && Opens(EntryAt(root', p).value.file, op)
    && forall q :: q != p ==>
         EntryAt(root', q) == if EntryAt(root, q).None? && q <= Front(p) then Some(Dir(CreatedBy(op.caller, 0x1ED)))
                              else EntryAt(root, q)
  }

  lemma {:induction false} BeginUploadExactly(s: State, op: Op)
    requires op.BeginUploadOp?
    ensures var error := BeginUploadError(s, op);
            if error.Some? then Refuses(s, op, error.value)
            else
              var p, s' := Parts(op.path).value, Step(s, op).0;
              && Step(s, op).1
                  == Ok(Uploading(op.placements, if Pending(s.root, p) then FileOf(s.root, p).blocks else []))
              && s' == s.(root := s'.root) && OpenedAt(s.root, s'.root, op, p)
  {
    if Parts(op.path).Ok? && Parts(op.path).value != [] {
      var p := Parts(op.path).value;
      GrowVerdict(s.root, Front(p), op.caller);
      if Grow(s.root, Front(p), op.caller).Ok? {
        SameAtTarget(s.root, p, op.caller);
        if BeginUploadError(s, op).None? {
          FileOnGrown(s, op, p);
        } else {
          NothingGrown(s.root, p, op.caller);
        }
      }
    }
  }

  /** Growth leaves the target as it was. */
  lemma {:induction false} SameAtTarget(root: Directory, p: Path, caller: Option<Caller>)
    requires p != [] && Grow(root, Front(p), caller).Ok?
    ensures var grown := Grow(root, Front(p), caller).value;
            && WalkTo(grown, Front(p)).Ok? && HasParent(grown, p) && EntryAt(grown, p) == EntryAt(root, p)
            && (IsFile(root, p) ==> Lookup(grown, p) == Lookup(root, p)) && (IsFile(grown, p) ==> IsFile(root, p))
  {
    var grown := Grow(root, Front(p), caller).value;
    GrowKeepsFiles(root, Front(p), caller, p);
    ParentFromWalk(grown, p);
    GrowEntries(root, Front(p), caller, p);
    assert !(p <= Front(p));
  }

  /** Where the name is taken no directory was missing. */
  lemma {:induction false} NothingGrown(root: Directory, p: Path, caller: Option<Caller>)
    requires p != [] && Grow(root, Front(p), caller).Ok? && EntryAt(root, p).Some?
    ensures Grow(root, Front(p), caller).value == root
  {
    GrowLeavesTreeOrEmptyDir(root, Front(p), caller);
    SameAtTarget(root, p, caller);
    LookupFromParent(Grow(root, Front(p), caller).value, p);
  }

  lemma {:induction false} FileOnGrown(s: State, op: Op, p: Path)
    requires op.BeginUploadOp? && Parts(op.path) == Ok(p) && p != [] && Grow(s.root, Front(p), op.caller).Ok?
    requires BeginUploadError(s, op).None? && Step(s, op).1.Ok?
    ensures OpenedAt(s.root, Step(s, op).0.root, op, p)
  {
    var grown := Grow(s.root, Front(p), op.caller).value;
    SameAtTarget(s.root, p, op.caller);
    OwnershipIsCreatedBy(op.caller);
    var file := FileRecord(false, NewBlocks(op.placements), LeaseFrom(op.now, op.lease), 0, op.blockSize,
                           Ownership(op.caller, FILE_MODE));
    assert Step(s, op).0.root == Put(grown, p, FileNode(file));
    forall q
      ensures EntryAt(Put(grown, p, FileNode(file)), q) == if q == p then Some(File(file)) else EntryAt(grown, q)
    {
      PutLeaf(grown, p, FileNode(file), q);
    }
    forall q ensures EntryAt(grown, q) ==
                     if EntryAt(s.root, q).None? && q <= Front(p) then Some(Dir(CreatedBy(op.caller, 0x1ED)))
                     else EntryAt(s.root, q)
    {
      GrowEntries(s.root, Front(p), op.caller, q);
    }
  }

  // ----- Confirming -----

  /** The first block with the id. */
  ghost predicate FirstWith(blocks: seq<BlockRecord>, id: string, i: nat) {
    i < |blocks| && blocks[i].id == id && forall j :: 0 <= j < i ==> blocks[j].id != id
  }

  /** `after` differs from `before` in one block at most, the first with the id. */
  ghost predicate OneBlock(before: seq<BlockRecord>, after: seq<BlockRecord>, id: string, block: BlockRecord) {
    && |after| == |before|
    && forall i :: 0 <= i < |before| ==> after[i] == if FirstWith(before, id, i) then block else before[i]
  }

  lemma {:induction false} IndexIsFirst(blocks: seq<BlockRecord>, id: string)
    ensures var i := IndexOfBlock(blocks, id);
            && (i < |blocks| <==> exists j :: 0 <= j < |blocks| && blocks[j].id == id)
            && (i < |blocks| ==> FirstWith(blocks, id, i))
            && forall j: nat :: FirstWith(blocks, id, j) ==> j == i
  {
  }

  ghost function ConfirmError(s: State, op: Op): Option<Error>
    requires op.ConfirmBlockOp?
  {
    if Parts(op.path).Err? then Some(InvalidPath)
    else
      var p := Parts(op.path).value;
      if !Pending(s.root, p) then Some(PathNotFound)
      else if !Owns(FileOf(s.root, p).attributes, op.caller) then Some(AccessDenied)
      else if !exists i :: 0 <= i < |FileOf(s.root, p).blocks| && FileOf(s.root, p).blocks[i].id == op.blockId
      then Some(PathNotFound)
      else None
  }

  /** The block gets the checksum and the size, and the upload a new lease; that is all. */
  ghost predicate Confirms(before: FileRecord, after: FileRecord, op: Op)
    requires op.ConfirmBlockOp?
  {
    && after == before.(blocks := after.blocks, leaseExpiresAt := after.leaseExpiresAt)
    && after.leaseExpiresAt == (if op.lease == 0.0 then before.leaseExpiresAt else op.now + op.lease)
    && forall i: nat :: FirstWith(before.blocks, op.blockId, i) ==>
         OneBlock(before.blocks, after.blocks, op.blockId,
                  BlockRecord(op.blockId, before.blocks[i].addresses, op.checksum, op.size, true))
  }

  /** A success that replaces one file by another. */
  ghost predicate Rewrites(s: State, op: Op, p: Path, file: FileRecord) {
    Changes(s, op, Unit, p, Some(File(file)))
  }

  lemma {:induction false} ConfirmExactly(s: State, op: Op)
    requires op.ConfirmBlockOp?
    ensures var error := ConfirmError(s, op);
            if error.Some? then Refuses(s, op, error.value)
            else exists file :: Rewrites(s, op, Parts(op.path).value, file)
                                && Confirms(FileOf(s.root, Parts(op.path).value), file, op)
  {
    if Parts(op.path).Ok? {
      var p := Parts(op.path).value;
      CommittedFileIsCommitted(s.root, p);
      if Pending(s.root, p) {
        var file := FileOf(s.root, p);
        OwnerOrAdminIsOwns(file.attributes, op.caller);
        IndexIsFirst(file.blocks, op.blockId);
        var i := IndexOfBlock(file.blocks, op.blockId);
        if ConfirmError(s, op).None? {
          var block := BlockRecord(op.blockId, file.blocks[i].addresses, op.checksum, op.size, true);
          var expires := if op.lease == 0.0 then file.leaseExpiresAt else op.now + op.lease;
          var file' := file.(blocks := file.blocks[i := block], leaseExpiresAt := expires);
          PutFileExactly(s.root, p, file');
          assert Rewrites(s, op, p, file') && Confirms(file, file', op);
        }
      }
    }
  }

  // ----- Completing and aborting -----

  ghost function CompleteError(s: State, op: Op): Option<Error>
    requires op.CompleteUploadOp?
  {
    if Parts(op.path).Err? then Some(InvalidPath)
    else
      var p := Parts(op.path).value;
      if !Pending(s.root, p) then Some(PathNotFound)
      else if !Owns(FileOf(s.root, p).attributes, op.caller) then Some(AccessDenied)
      else if exists i :: 0 <= i < |FileOf(s.root, p).blocks| && !FileOf(s.root, p).blocks[i].confirmed
      then Some(InvalidPath)
      else None
  }

  lemma {:induction false} CompleteExactly(s: State, op: Op)
    requires op.CompleteUploadOp?
    ensures var error := CompleteError(s, op);
            if error.Some? then Refuses(s, op, error.value)
            else Rewrites(s, op, Parts(op.path).value, FileOf(s.root, Parts(op.path).value).(committed := true))
  {
    if Parts(op.path).Ok? {
      var p := Parts(op.path).value;
      CommittedFileIsCommitted(s.root, p);
      if Pending(s.root, p) {
        OwnerOrAdminIsOwns(FileOf(s.root, p).attributes, op.caller);
        PutFileExactly(s.root, p, FileOf(s.root, p).(committed := true));
      }
    }
  }

  ghost function AbortError(s: State, op: Op): Option<Error>
    requires op.AbortUploadOp?
  {
    if Parts(op.path).Err? then Some(InvalidPath)
    else
      var p := Parts(op.path).value;
      if p == [] then Some(InvalidPath)
      else if FileInTheWay(s.root, Front(p)) then Some(NotADirectory)
      else if !Pending(s.root, p) then Some(PathNotFound)
      else if !Owns(FileOf(s.root, p).attributes, op.caller) then Some(AccessDenied)
      else None
  }

  lemma {:induction false} AbortExactly(s: State, op: Op)
    requires op.AbortUploadOp?
    ensures var error := AbortError(s, op);
            if error.Some? then Refuses(s, op, error.value) else Changes(s, op, Unit, Parts(op.path).value, None)
  {
    if Parts(op.path).Ok? && Parts(op.path).value != [] {
      var p := Parts(op.path).value;
      ParentExactly(s.root, p);
      NothingWithoutParent(s.root, p);
      if Pending(s.root, p) {
        OwnerOrAdminIsOwns(FileOf(s.root, p).attributes, op.caller);
        if WalkTo(s.root, Front(p)).Ok? {
          DeleteExactly(s.root, p);
        }
      }
    }
  }

  lemma {:induction false} NothingWithoutParent(root: Directory, p: Path)
    requires p != []
    ensures Lookup(root, Front(p)).None? ==> Lookup(root, p) == None
  {
    LookupConcat(root, Front(p), [Last(p)]);
    assert p == Front(p) + [Last(p)];
  }
}
