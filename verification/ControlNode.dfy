/** `ControlTree` as the object it is: four fields that each mutation updates in place.
    Every method is proved to be one step of the metadata state machine. */
module ControlNode {
  import opened Common
  import opened Paths
  import opened Tree
  import opened WritePlan
  import opened Mutations
  import opened Walks

  // ----- Lemmas for updating along a path while walking it -----

  lemma {:induction false} PutSnoc(node: Directory, prefix: Path, name: string, entry: Node)
    requires WalkTo(node, prefix).Ok?
    ensures HasParent(node, prefix) && HasParent(node, prefix + [name])
    ensures var at := WalkTo(node, prefix).value;
            Put(node, prefix + [name], entry) == Put(node, prefix, DirNode(at.children[name := entry], at.attributes))
    decreases |prefix|
  {
    if prefix == [] {
      assert prefix + [name] == [name];
    } else {
      assert (prefix + [name])[1..] == prefix[1..] + [name];
      PutSnoc(node.children[prefix[0]], prefix[1..], name, entry);
    }
  }

  lemma {:induction false} PutPut(node: Node, path: Path, a: Node, b: Node)
    requires HasParent(node, path)
    ensures HasParent(Put(node, path, a), path) && Put(Put(node, path, a), path, b) == Put(node, path, b)
    decreases |path|
  {
    if |path| > 1 {
      PutPut(node.children[path[0]], path[1..], a, b);
    }
  }

  lemma {:induction false} WalkAfterPut(node: Directory, path: Path, entry: Directory)
    requires HasParent(node, path)
    ensures Put(node, path, entry).DirNode? && WalkTo(Put(node, path, entry), path) == Ok(entry)
    decreases |path|
  {
    if |path| > 1 {
      WalkAfterPut(node.children[path[0]], path[1..], entry);
    }
  }

  lemma {:induction false} WalkSnoc(node: Directory, prefix: Path, name: string)
    requires WalkTo(node, prefix).Ok?
    ensures WalkTo(node, prefix + [name]) == WalkTo(WalkTo(node, prefix).value, [name])
    decreases |prefix|
  {
    if prefix == [] {
      assert prefix + [name] == [name];
    } else {
      assert (prefix + [name])[1..] == prefix[1..] + [name];
      WalkSnoc(node.children[prefix[0]], prefix[1..], name);
    }
  }

  lemma {:induction false} WalkFails(node: Directory, prefix: Path, rest: Path)
    requires WalkTo(node, prefix).Ok?
    ensures WalkTo(node, prefix + rest) == WalkTo(WalkTo(node, prefix).value, rest)
    decreases |prefix|
  {
    if prefix == [] {
      assert prefix + rest == rest;
    } else {
      assert (prefix + rest)[1..] == prefix[1..] + rest;
      WalkFails(node.children[prefix[0]], prefix[1..], rest);
    }
  }

  /** Growing a tree grows the directory where the walk stands. */
  lemma {:induction false} GrowFrom(node: Directory, prefix: Path, rest: Path, caller: Option<Caller>)
    requires WalkTo(node, prefix).Ok?
    ensures HasParent(node, prefix)
    ensures Grow(node, prefix + rest, caller) ==
            var grown := Grow(WalkTo(node, prefix).value, rest, caller);
            if grown.Err? then grown else Ok(Put(node, prefix, grown.value))
    decreases |prefix|
  {
    if prefix == [] {
      assert prefix + rest == rest;
    } else {
      assert (prefix + rest)[1..] == prefix[1..] + rest;
      GrowFrom(node.children[prefix[0]], prefix[1..], rest, caller);
    }
  }

  /** Creating the next missing directory leaves the same tree to be reached. */
  lemma {:induction false} CreateOne(node: Directory, prefix: Path, name: string, rest: Path, caller: Option<Caller>,
        newDir: Directory)
    requires WalkTo(node, prefix).Ok?
    ensures HasParent(node, prefix) && HasParent(node, prefix + [name])
    ensures Put(node, prefix + [name], newDir).DirNode?
    ensures var at, next := WalkTo(node, prefix).value, Put(node, prefix + [name], newDir);
            && WalkTo(next, prefix + [name]) == Ok(newDir) && HasParent(next, prefix + [name])
            && Put(next, prefix + [name], Chain(rest, caller))
               == Put(node, prefix, DirNode(at.children[name := Chain(rest, caller)], at.attributes))
  {
    PutSnoc(node, prefix, name, newDir);
    PutSnoc(node, prefix, name, Chain(rest, caller));
    PutPut(node, prefix + [name], newDir, Chain(rest, caller));
    WalkAfterPut(node, prefix + [name], newDir);
  }

  /** Putting back what is there changes nothing. */
  lemma {:induction false} PutSelf(node: Directory, path: Path)
    requires WalkTo(node, path).Ok?
    ensures HasParent(node, path) && Put(node, path, WalkTo(node, path).value) == node
    decreases |path|
  {
    if path != [] {
      PutSelf(node.children[path[0]], path[1..]);
    }
  }

  class ControlTree {
    var root: Directory
    var locks: map<Path, LockState>
    var writes: map<string, Reservation>
    var users: map<string, User>

    function View(): State
      reads this
    {
      State(root, locks, writes, users)
    }

    constructor ()
      ensures View() == INITIAL
    {
      root := DirNode(map[], Attributes(DEFAULT_OWNER, DEFAULT_OWNER, ROOT_MODE));
      locks := map[];
      writes := map[];
      users := map[];
    }

    // ----- Reading the tree -----

    method GetNode(parts: Path) returns (node: Option<Node>)
      ensures node == Lookup(root, parts)
    {
      if parts == [] {
        return Some(root);
      }
      var parent: Directory := root;
      for i := 0 to |parts| - 1
        invariant WalkTo(root, parts[..i]) == Ok(parent)
      {
        WalkIsLookup(root, parts[..i]);
        LookupConcat(root, parts[..i], parts[i..]);
        assert parts == parts[..i] + parts[i..];
        if parts[i] !in parent.children || !parent.children[parts[i]].DirNode? {
          assert Lookup(parent, parts[i..]) == None by {
            if parts[i] in parent.children {
              assert parts[i..][1..] != [];
            }
          }
          return None;
        }
        WalkSnoc(root, parts[..i], parts[i]);
        assert parts[..i] + [parts[i]] == parts[..i + 1];
        parent := parent.children[parts[i]];
      }
      assert parts[..|parts| - 1] == Front(parts);
      LookupFromParent(root, parts);
      return if Last(parts) in parent.children then Some(parent.children[Last(parts)]) else None;
    }

    method WalkToParent(parts: Path) returns (r: Result<Directory>)
      ensures r == WalkTo(root, parts)
    {
      var current: Directory := root;
      for i := 0 to |parts|
        invariant WalkTo(root, parts[..i]) == Ok(current)
      {
        WalkFails(root, parts[..i], parts[i..]);
        assert parts == parts[..i] + parts[i..];
        if parts[i] !in current.children {
          return Err(PathNotFound);
        }
        if !current.children[parts[i]].DirNode? {
          return Err(NotADirectory);
        }
        WalkSnoc(root, parts[..i], parts[i]);
        assert parts[..i] + [parts[i]] == parts[..i + 1];
        current := current.children[parts[i]];
      }
      assert parts[..|parts|] == parts;
      return Ok(current);
    }

    /** The walk that creates: it checks `w` on the last directory that existed, before the
        first creation or, if nothing was missing, at the end. */
    method WalkCreating(parts: Path, caller: Option<Caller>) returns (r: Result<Directory>)
      modifies this`root
      ensures r.Ok? <==> Grow(old(root), parts, caller).Ok?
      ensures r.Ok? ==> root == Grow(old(root), parts, caller).value && WalkTo(root, parts) == r
      ensures r.Err? ==> root == old(root) && r.error == Grow(old(root), parts, caller).error
    {
      var current: Directory := root;
      var created := false;
      ghost var goal := Grow(root, parts, caller);
      for i := 0 to |parts|
        invariant WalkTo(root, parts[..i]) == Ok(current)
        invariant !created ==> root == old(root)
        invariant created ==> goal.Ok? && HasParent(root, parts[..i]) && current == Chain([], caller)
                              && goal.value == Put(root, parts[..i], Chain(parts[i..], caller))
      {
        ghost var prefix, name := parts[..i], parts[i];
        assert parts[..i + 1] == prefix + [name];
        assert parts == prefix + parts[i..];
        GrowFrom(root, prefix, parts[i..], caller);
        WalkSnoc(root, prefix, name);
        if parts[i] !in current.children {
          if !created {
            if !Allows(current.attributes, caller, WRITE) {
              return Err(AccessDenied);
            }
            created := true;
          }
          var newDir: Directory := DirNode(map[], Ownership(caller, DIR_MODE));
          CreateOne(root, prefix, name, parts[i + 1..], caller, newDir);
          assert parts[i..][1..] == parts[i + 1..];
          root := Put(root, parts[..i + 1], newDir);
          current := newDir;
        } else {
          if !current.children[parts[i]].DirNode? {
            return Err(NotADirectory);
          }
          current := current.children[parts[i]];
        }
      }
      assert parts[..|parts|] == parts && parts[|parts|..] == [];
      if created {
        WalkAfterPut(root, parts, current);
        PutSelf(root, parts);
      } else {
        GrowFrom(root, parts, [], caller);
        assert parts + [] == parts;
        PutSelf(root, parts);
        if !Allows(current.attributes, caller, WRITE) {
          return Err(AccessDenied);
        }
      }
      return Ok(current);
    }

    /** The re-replicator's photograph of the committed blocks. */
    method IterBlocks() returns (snapshot: seq<(string, BlockRecord)>, ghost places: seq<Place>)
      ensures forall entry :: entry in snapshot <==> exists place :: Reports(root, entry, place)
      ensures SnapshotOf(root, snapshot, places)
    {
      snapshot, places := Walks.IterBlocks(root);
    }

    /** The collector's photograph of what must not be deleted. */
    method ReferencedBlocks(now: real) returns (r: References)
      ensures forall id, a :: Maps(r, id, a) <==> Assigned(View(), now, id, a)
    {
      r := Walks.ReferencedBlocks(View(), now);
    }

    // ----- Namespace -----

    method MakeDir(path: string, caller: Option<Caller>) returns (r: Result<Value>)
      modifies this
      ensures (View(), r) == Step(old(View()), MakeDirOp(path, caller))
    {
      var parsed := Parts(path);
      if parsed.Err? {
        return Err(parsed.error);
      }
      var parts := parsed.value;
      if parts == [] {
        return Err(PathExists);
      }
      var parent := WalkToParent(Front(parts));
      if parent.Err? {
        return Err(parent.error);
      }
      if !Allows(parent.value.attributes, caller, WRITE) {
        return Err(AccessDenied);
      }
      if Last(parts) in parent.value.children {
        return Err(PathExists);
      }
      ParentFromWalk(root, parts);
      root := Put(root, parts, DirNode(map[], Ownership(caller, DIR_MODE)));
      return Ok(Unit);
    }

    method RemoveDir(path: string, caller: Option<Caller>) returns (r: Result<Value>)
      modifies this
      ensures (View(), r) == Step(old(View()), RemoveDirOp(path, caller))
    {
      var parsed := Parts(path);
      if parsed.Err? {
        return Err(parsed.error);
      }
      var parts := parsed.value;
      if parts == [] {
        return Err(InvalidPath);
      }
      var parent := WalkToParent(Front(parts));
      if parent.Err? {
        return Err(parent.error);
      }
      if !Allows(parent.value.attributes, caller, WRITE) {
        return Err(AccessDenied);
      }
      if Last(parts) !in parent.value.children {
        return Err(PathNotFound);
      }
      var node := parent.value.children[Last(parts)];
      if !node.DirNode? {
        return Err(NotADirectory);
      }
      if node.children != map[] {
        return Err(NotEmpty);
      }
      ParentFromWalk(root, parts);
      root := Delete(root, parts);
      return Ok(Unit);
    }

    method CleanupExpiredLocks(path: Path, now: real)
      modifies this`locks
      ensures locks == CleanLocks(old(locks), path, now)
    {
      if path !in locks {
        return;
      }
      var live := LiveHolders(locks[path].holders, now);
      locks := locks[path := locks[path].(holders := live)];
      if live == map[] {
        locks := locks - {path};
      }
    }

    method RemoveFile(path: string, now: real, caller: Option<Caller>) returns (r: Result<Value>)
      modifies this
      ensures (View(), r) == Step(old(View()), RemoveFileOp(path, now, caller))
    {
      var parsed := Parts(path);
      if parsed.Err? {
        return Err(parsed.error);
      }
      var parts := parsed.value;
      if parts == [] {
        return Err(InvalidPath);
      }
      var parent := WalkToParent(Front(parts));
      if parent.Err? {
        return Err(parent.error);
      }
      if !Allows(parent.value.attributes, caller, WRITE) {
        return Err(AccessDenied);
      }
      if Last(parts) !in parent.value.children {
        return Err(PathNotFound);
      }
      var node := parent.value.children[Last(parts)];
      if !node.FileNode? {
        return Err(NotAFile);
      }
      if !node.file.committed {
        return Err(PathNotFound);
      }
      CleanupExpiredLocks(parts, now);
      if parts in locks {
        return Err(Conflict);
      }
      ParentFromWalk(root, parts);
      root := Delete(root, parts);
      return Ok(Removed(node.file.blocks));
    }

    // ----- Locks -----

    method GetCommittedFile(parts: Path) returns (r: Result<FileRecord>)
      ensures r == CommittedFile(root, parts)
    {
      var node := GetNode(parts);
      if node.None? || !node.value.FileNode? || !node.value.file.committed {
        return Err(PathNotFound);
      }
      return Ok(node.value.file);
    }

    method AcquireLock(path: string, lockId: string, owner: string, mode: string, now: real, lease: real,
                       caller: Option<Caller>) returns (r: Result<Value>)
      modifies this
      ensures (View(), r) == Step(old(View()), AcquireLockOp(path, lockId, owner, mode, now, lease, caller))
    {
      var parsed := Parts(path);
      if parsed.Err? {
        return Err(parsed.error);
      }
      var parts := parsed.value;
      var wanted := ModeOf(mode);
      if wanted.None? {
        return Err(InvalidPath);
      }
      if lease <= 0.0 {
        return Err(InvalidPath);
      }
      var found := GetCommittedFile(parts);
      if found.Err? {
        return Err(found.error);
      }
      if !Allows(found.value.attributes, caller, if wanted.value.Shared? then READ else WRITE) {
        return Err(AccessDenied);
      }
      CleanupExpiredLocks(parts, now);
      if parts in locks && (locks[parts].mode != Shared || wanted.value != Shared) {
        return Err(Conflict);
      }
      var state := if parts in locks then locks[parts] else LockState(wanted.value, map[]);
      if lockId in state.holders {
        return Err(Conflict);
      }
      locks := locks[parts := state.(holders := state.holders[lockId := Holder(owner, now + lease)])];
      return Ok(LockId(lockId));
    }

    method RenewLock(path: string, lockId: string, now: real, lease: real) returns (r: Result<Value>)
      modifies this
      ensures (View(), r) == Step(old(View()), RenewLockOp(path, lockId, now, lease))
    {
      var parsed := Parts(path);
      if parsed.Err? {
        return Err(parsed.error);
      }
      var parts := parsed.value;
      if lease <= 0.0 {
        return Err(InvalidPath);
      }
      var found := GetCommittedFile(parts);
      if found.Err? {
        return Err(found.error);
      }
      CleanupExpiredLocks(parts, now);
      if parts !in locks || lockId !in locks[parts].holders {
        return Err(Conflict);
      }
      var state := locks[parts];
      var owner := state.holders[lockId].owner;
      locks := locks[parts := state.(holders := state.holders[lockId := Holder(owner, now + lease)])];
      return Ok(Unit);
    }

    method ReleaseLock(path: string, lockId: string, now: real) returns (r: Result<Value>)
      modifies this
      ensures (View(), r) == Step(old(View()), ReleaseLockOp(path, lockId, now))
    {
      var parsed := Parts(path);
      if parsed.Err? {
        return Err(parsed.error);
      }
      var parts := parsed.value;
      var found := GetCommittedFile(parts);
      if found.Err? {
        return Err(found.error);
      }
      CleanupExpiredLocks(parts, now);
      if parts !in locks {
        return Ok(Unit);
      }
      if lockId !in locks[parts].holders {
        return Err(Conflict);
      }
      ghost var cleaned := locks;
      locks := locks[parts := locks[parts].(holders := locks[parts].holders - {lockId})];
      if locks[parts].holders == map[] {
        locks := locks - {parts};
        assert locks == cleaned - {parts};
      }
      return Ok(Unit);
    }

    // ----- Permissions and users -----

    method GetVisibleNode(parts: Path) returns (r: Result<Node>)
      ensures r == VisibleNode(root, parts)
    {
      var node := GetNode(parts);
      if node.None? || (node.value.FileNode? && !node.value.file.committed) {
        return Err(PathNotFound);
      }
      return Ok(node.value);
    }

    method Chmod(path: string, newMode: int, caller: Option<Caller>) returns (r: Result<Value>)
      modifies this
      ensures (View(), r) == Step(old(View()), ChmodOp(path, newMode, caller))
    {
      var parsed := Parts(path);
      if parsed.Err? {
        return Err(parsed.error);
      }
      var found := GetVisibleNode(parsed.value);
      if found.Err? {
        return Err(found.error);
      }
      var attributes := AttributesOf(found.value);
      if !OwnerOrAdmin(attributes, caller) {
        return Err(AccessDenied);
      }
      if newMode < 0 || newMode > MAX_MODE {
        return Err(InvalidPath);
      }
      root := Relabel(root, parsed.value, attributes.(mode := newMode));
      return Ok(Unit);
    }

    method Chown(path: string, newOwner: string, newGroup: string, caller: Option<Caller>) returns (r: Result<Value>)
      modifies this
      ensures (View(), r) == Step(old(View()), ChownOp(path, newOwner, newGroup, caller))
    {
      var parsed := Parts(path);
      if parsed.Err? {
        return Err(parsed.error);
      }
      var found := GetVisibleNode(parsed.value);
      if found.Err? {
        return Err(found.error);
      }
      if newOwner == "" && newGroup == "" {
        return Err(InvalidPath);
      }
      var attributes := AttributesOf(found.value);
      if caller.Some? && !caller.value.isAdmin {
        if newOwner != "" {
          return Err(AccessDenied);
        }
        if !(caller.value.username == attributes.owner && newGroup in caller.value.groups) {
          return Err(AccessDenied);
        }
      }
      if newOwner != "" && newOwner !in users {
        return Err(PathNotFound);
      }
      if newGroup != "" && !ValidName(newGroup) {
        return Err(InvalidPath);
      }
      if newOwner != "" {
        attributes := attributes.(owner := newOwner);
      }
      if newGroup != "" {
        attributes := attributes.(group := newGroup);
      }
      root := Relabel(root, parsed.value, attributes);
      return Ok(Unit);
    }

    method CreateUser(username: string, hash: string, salt: string, groups: seq<string>, isAdmin: bool)
      returns (r: Result<Value>)
      modifies this
      ensures (View(), r) == Step(old(View()), CreateUserOp(username, hash, salt, groups, isAdmin))
    {
      if !ValidName(username) {
        return Err(InvalidPath);
      }
      for i := 0 to |groups|
        invariant forall k :: 0 <= k < i ==> ValidName(groups[k])
      {
        if !ValidName(groups[i]) {
          return Err(InvalidPath);
        }
      }
      if username in users {
        return Err(PathExists);
      }
      users := users[username := User(hash, salt, groups, isAdmin)];
      return Ok(Unit);
    }

    method ChangePassword(username: string, hash: string, salt: string) returns (r: Result<Value>)
      modifies this
      ensures (View(), r) == Step(old(View()), ChangePasswordOp(username, hash, salt))
    {
      if username !in users {
        return Err(PathNotFound);
      }
      var user := users[username];
      users := users[username := User(hash, salt, user.groups, user.isAdmin)];
      return Ok(Unit);
    }

    // ----- Uploads -----

    method BeginUpload(path: string, placements: seq<Placement>, now: real, lease: real, blockSize: nat,
                       caller: Option<Caller>) returns (r: Result<Value>)
      modifies this
      ensures (View(), r) == Step(old(View()), BeginUploadOp(path, placements, now, lease, blockSize, caller))
    {
      var parsed := Parts(path);
      if parsed.Err? {
        return Err(parsed.error);
      }
      var parts := parsed.value;
      if parts == [] {
        return Err(InvalidPath);
      }
      var parent := WalkCreating(Front(parts), caller);
      if parent.Err? {
        return Err(parent.error);
      }
      LookupFromParent(root, parts);
      var stale: seq<BlockRecord> := [];
      if Last(parts) in parent.value.children {
        var existing := parent.value.children[Last(parts)];
        if existing.FileNode? && !existing.file.committed && LeaseExpired(existing.file, now) {
          stale := existing.file.blocks;
        } else {
          return Err(PathExists);
        }
      }
      ParentFromWalk(root, parts);
      var file := FileRecord(false, NewBlocks(placements), LeaseFrom(now, lease), 0, blockSize,
                             Ownership(caller, FILE_MODE));
      root := Put(root, parts, FileNode(file));
      return Ok(Uploading(placements, stale));
    }

    method GetPendingFile(parts: Path) returns (r: Result<FileRecord>)
      ensures r == PendingFile(root, parts)
    {
      var node := GetNode(parts);
      if node.None? || !node.value.FileNode? || node.value.file.committed {
        return Err(PathNotFound);
      }
      return Ok(node.value.file);
    }

    method ConfirmBlock(path: string, blockId: string, checksum: string, size: int, now: real, lease: real,
                        caller: Option<Caller>) returns (r: Result<Value>)
      modifies this
      ensures (View(), r) == Step(old(View()), ConfirmBlockOp(path, blockId, checksum, size, now, lease, caller))
    {
      var parsed := Parts(path);
      if parsed.Err? {
        return Err(parsed.error);
      }
      var found := GetPendingFile(parsed.value);
      if found.Err? {
        return Err(found.error);
      }
      var file := found.value;
      if !OwnerOrAdmin(file.attributes, caller) {
        return Err(AccessDenied);
      }
      for i := 0 to |file.blocks|
        invariant forall k :: 0 <= k < i ==> file.blocks[k].id != blockId
      {
        if file.blocks[i].id == blockId {
          assert IndexOfBlock(file.blocks, blockId) == i;
          var block := file.blocks[i].(checksum := checksum, size := size, confirmed := true);
          var expires := if lease != 0.0 then now + lease else file.leaseExpiresAt;
          root := PutFile(root, parsed.value, file.(blocks := file.blocks[i := block], leaseExpiresAt := expires));
          return Ok(Unit);
        }
      }
      return Err(PathNotFound);
    }

    method CompleteUpload(path: string, caller: Option<Caller>) returns (r: Result<Value>)
      modifies this
      ensures (View(), r) == Step(old(View()), CompleteUploadOp(path, caller))
    {
      var parsed := Parts(path);
      if parsed.Err? {
        return Err(parsed.error);
      }
      var found := GetPendingFile(parsed.value);
      if found.Err? {
        return Err(found.error);
      }
      var file := found.value;
      if !OwnerOrAdmin(file.attributes, caller) {
        return Err(AccessDenied);
      }
      var unconfirmed := 0;
      for i := 0 to |file.blocks|
        invariant unconfirmed >= 0
        invariant unconfirmed == 0 <==> forall k :: 0 <= k < i ==> file.blocks[k].confirmed
      {
        if !file.blocks[i].confirmed {
          unconfirmed := unconfirmed + 1;
        }
      }
      if unconfirmed > 0 {
        return Err(InvalidPath);
      }
      root := PutFile(root, parsed.value, file.(committed := true));
      return Ok(Unit);
    }

    method AbortUpload(path: string, caller: Option<Caller>) returns (r: Result<Value>)
      modifies this
      ensures (View(), r) == Step(old(View()), AbortUploadOp(path, caller))
    {
      var parsed := Parts(path);
      if parsed.Err? {
        return Err(parsed.error);
      }
      var parts := parsed.value;
      if parts == [] {
        return Err(InvalidPath);
      }
      var parent := WalkToParent(Front(parts));
      if parent.Err? {
        return Err(parent.error);
      }
      if Last(parts) !in parent.value.children {
        return Err(PathNotFound);
      }
      var node := parent.value.children[Last(parts)];
      if !node.FileNode? || node.file.committed {
        return Err(PathNotFound);
      }
      if !OwnerOrAdmin(node.file.attributes, caller) {
        return Err(AccessDenied);
      }
      ParentFromWalk(root, parts);
      root := Delete(root, parts);
      return Ok(Unit);
    }

    method UpdateBlockReplicas(path: string, blockId: string, expected: seq<string>, replacement: seq<string>)
      returns (r: Result<Value>)
      modifies this
      ensures (View(), r) == Step(old(View()), UpdateReplicasOp(path, blockId, expected, replacement))
    {
      var parsed := Parts(path);
      if parsed.Err? {
        return Err(parsed.error);
      }
      var found := GetCommittedFile(parsed.value);
      if found.Err? {
        return Err(found.error);
      }
      var file := found.value;
      for i := 0 to |file.blocks|
        invariant forall k :: 0 <= k < i ==> file.blocks[k].id != blockId
      {
        if file.blocks[i].id == blockId {
          assert IndexOfBlock(file.blocks, blockId) == i;
          if file.blocks[i].addresses != expected {
            return Err(Conflict);
          }
          var block := file.blocks[i].(addresses := replacement);
          root := PutFile(root, parsed.value, file.(blocks := file.blocks[i := block]));
          return Ok(Unit);
        }
      }
      return Err(PathNotFound);
    }

    // ----- Copy-on-write -----

    method DescribeSlots(blocks: seq<BlockRecord>, slots: seq<WriteSlot>) returns (described: seq<SlotView>)
      ensures described == Describe(blocks, slots)
    {
      described := [];
      for k := 0 to |slots|
        invariant |described| == k && forall j :: 0 <= j < k ==> described[j] == DescribeSlot(blocks, slots[j])
      {
        described := described + [DescribeSlot(blocks, slots[k])];
      }
    }

    method BeginWrite(path: string, writeId: string, lockId: string, baseVersion: int, offset: int, length: int,
                      proposals: seq<Proposal>, now: real, lease: real, defaultBlockSize: nat, caller: Option<Caller>)
      returns (r: Result<Value>)
      modifies this
      ensures (View(), r) == Step(old(View()), BeginWriteOp(path, writeId, lockId, baseVersion, offset, length,
                                                            proposals, now, lease, defaultBlockSize, caller))
    {
      var parsed := Parts(path);
      if parsed.Err? {
        return Err(parsed.error);
      }
      var parts := parsed.value;
      var found := GetCommittedFile(parts);
      if found.Err? {
        return Err(found.error);
      }
      var file := found.value;
      if !Allows(file.attributes, caller, WRITE) {
        return Err(AccessDenied);
      }
      CleanupExpiredLocks(parts, now);
      if !HoldsWriteLock(locks, parts, lockId) {
        return Err(Conflict);
      }
      writes := CleanWrites(writes, now);
      if writeId in writes {
        return Err(Conflict);
      }
      if file.version != baseVersion {
        return Err(Conflict);
      }
      var blockSize := BlockSizeOf(file, defaultBlockSize);
      var plan := PlanWriteSlots(BlockSizes(file.blocks), blockSize, offset, length);
      if plan.Err? {
        return Err(plan.error);
      }
      if !ProposalsFit(plan.value, proposals) {
        return Err(Conflict);
      }
      var slots := ReservedSlots(plan.value, proposals);
      writes := writes[writeId := Reservation(parts, file.version, lockId, blockSize, slots, now + lease)];
      var described := DescribeSlots(file.blocks, slots);
      return Ok(Writing(writeId, file.version, blockSize, described));
    }

    /** Replaces or appends the reserved blocks one by one, as the commit does. */
    method PublishSlots(blocks: seq<BlockRecord>, slots: seq<WriteSlot>, confirmed: seq<Confirmed>)
      returns (published: seq<BlockRecord>, replaced: seq<BlockRecord>)
      requires |slots| == |confirmed|
      ensures (published, replaced) == Publish(blocks, slots, confirmed)
    {
      published, replaced := blocks, [];
      assert slots[0..] == slots && confirmed[0..] == confirmed;
      for k := 0 to |slots|
        invariant Publish(blocks, slots, confirmed).0 == Publish(published, slots[k..], confirmed[k..]).0
        invariant Publish(blocks, slots, confirmed).1 == replaced + Publish(published, slots[k..], confirmed[k..]).1
      {
        var block := PublishedBlock(slots[k], confirmed[k]);
        assert slots[k..][1..] == slots[k + 1..] && confirmed[k..][1..] == confirmed[k + 1..];
        if slots[k].index < |published| {
          replaced := replaced + [published[slots[k].index]];
          published := published[slots[k].index := block];
        } else {
          published := published + [block];
        }
      }
      assert slots[|slots|..] == [] && confirmed[|slots|..] == [] && replaced + [] == replaced;
    }

    method CommitWrite(path: string, writeId: string, lockId: string, baseVersion: int, confirmed: seq<Confirmed>,
                       now: real, caller: Option<Caller>) returns (r: Result<Value>)
      modifies this
      ensures (View(), r)
              == Mutations.CommitWrite(old(View()), path, writeId, lockId, baseVersion, confirmed, now, caller)
    {
      var parsed := Parts(path);
      if parsed.Err? {
        return Err(parsed.error);
      }
      var parts := parsed.value;
      var found := GetCommittedFile(parts);
      if found.Err? {
        return Err(found.error);
      }
      var file := found.value;
      if !Allows(file.attributes, caller, WRITE) {
        return Err(AccessDenied);
      }
      writes := CleanWrites(writes, now);
      if writeId !in writes || writes[writeId].path != parts {
        return Err(Conflict);
      }
      var reservation := writes[writeId];
      if reservation.lockId != lockId {
        return Err(Conflict);
      }
      CleanupExpiredLocks(parts, now);
      if !HoldsWriteLock(locks, parts, lockId) {
        return Err(Conflict);
      }
      if baseVersion != reservation.baseVersion || file.version != reservation.baseVersion {
        return Err(Conflict);
      }
      if !ConfirmsReservation(confirmed, reservation.slots) {
        return Err(Conflict);
      }
      var published, replaced := PublishSlots(file.blocks, reservation.slots, confirmed);
      root := PutFile(root, parts, file.(blocks := published, version := file.version + 1,
                                         blockSize := reservation.blockSize));
      writes := writes - {writeId};
      return Ok(Published(file.version + 1, replaced));
    }

    method AbortWrite(path: string, writeId: string, lockId: string, now: real) returns (r: Result<Value>)
      modifies this
      ensures (View(), r) == Step(old(View()), AbortWriteOp(path, writeId, lockId, now))
    {
      var parsed := Parts(path);
      if parsed.Err? {
        return Err(parsed.error);
      }
      writes := CleanWrites(writes, now);
      if writeId !in writes || writes[writeId].path != parsed.value {
        return Ok(Aborted([]));
      }
      var reservation := writes[writeId];
      if reservation.lockId != lockId {
        return Err(Conflict);
      }
      writes := writes - {writeId};
      return Ok(Aborted(ReservedBlocks(reservation.slots)));
    }
  }
}
