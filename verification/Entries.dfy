/** The namespace seen entry by entry, free of how it is walked and updated: what lies at a
    path, what a caller may do with it, why a walk stops, and what a change leaves elsewhere. */
module Entries {
  import opened Common
  import opened Paths
  import opened Tree
  import opened Mutations

  // ----- What lies at a path -----

  /** A directory without its children, or a file. */
  datatype Entry = Dir(attributes: Attributes) | File(file: FileRecord)

  function EntryOf(node: Node): Entry {
    match node
    case DirNode(_, attributes) => Dir(attributes)
    case FileNode(file) => File(file)
  }

  function EntryAt(node: Node, path: Path): Option<Entry> {
    var found := Lookup(node, path);
    if found.None? then None else Some(EntryOf(found.value))
  }

  /** The nodes met on the way, from the root to the last name. */
  ghost predicate Descends(node: Node, path: Path, nodes: seq<Node>) {
    && |nodes| == |path| + 1 && nodes[0] == node
    && forall i :: 0 <= i < |path| ==>
         nodes[i].DirNode? && path[i] in nodes[i].children && nodes[i].children[path[i]] == nodes[i + 1]
  }

  /** Lookup finds exactly what a descent from child to child ends in. */
  lemma {:induction false} LookupIsADescent(node: Node, path: Path, end: Node)
    ensures Lookup(node, path) == Some(end) <==> exists nodes :: Descends(node, path, nodes) && nodes[|path|] == end
    decreases |path|
  {
    if path == [] {
      if node == end {
        assert Descends(node, path, [node]) && [node][|path|] == end;
      }
    } else {
      if Lookup(node, path) == Some(end) {
        var child := node.children[path[0]];
        LookupIsADescent(child, path[1..], end);
        var nodes :| Descends(child, path[1..], nodes) && nodes[|path[1..]|] == end;
        Prepended(node, path, nodes);
        assert ([node] + nodes)[|path|] == end;
      }
      if nodes :| Descends(node, path, nodes) && nodes[|path|] == end {
        RestDescends(node, path, nodes);
        assert nodes[1..][|path[1..]|] == end;
        LookupIsADescent(nodes[1], path[1..], end);
      }
    }
  }

  lemma {:induction false} Prepended(node: Node, path: Path, nodes: seq<Node>)
    requires path != [] && node.DirNode? && path[0] in node.children
    requires Descends(node.children[path[0]], path[1..], nodes)
    ensures Descends(node, path, [node] + nodes)
  {
    var all := [node] + nodes;
    forall i | 0 <= i < |path|
      ensures all[i].DirNode? && path[i] in all[i].children && all[i].children[path[i]] == all[i + 1]
    {
      assert i > 0 ==> path[i] == path[1..][i - 1];
    }
  }

  lemma {:induction false} RestDescends(node: Node, path: Path, nodes: seq<Node>)
    requires path != [] && Descends(node, path, nodes)
    ensures Descends(nodes[1], path[1..], nodes[1..])
    ensures node.DirNode? && path[0] in node.children && node.children[path[0]] == nodes[1]
  {
    forall i | 0 <= i < |path[1..]|
      ensures var rest := nodes[1..];
              && rest[i].DirNode? && path[1..][i] in rest[i].children
              && rest[i].children[path[1..][i]] == rest[i + 1]
    {
      assert nodes[i + 1].children[path[i + 1]] == nodes[i + 2];
    }
  }

  // ----- Permissions, bit by bit -----

  datatype Access = Reading | Changing

  predicate Bit(mode: int, bit: int)
    requires bit > 0
  {
    mode / bit % 2 == 1
  }

  /** The nine bits of a mode, one class for each caller; nothing is checked without one, nor
      for an administrator. */
  predicate Permits(attributes: Attributes, caller: Option<Caller>, access: Access) {
    caller.None? || caller.value.isAdmin
    || (if caller.value.username == attributes.owner then Bit(attributes.mode, if access.Reading? then 256 else 128)
        else if attributes.group in caller.value.groups then Bit(attributes.mode, if access.Reading? then 32 else 16)
        else Bit(attributes.mode, if access.Reading? then 4 else 2))
  }

  lemma {:induction false} AllowsIsPermits(attributes: Attributes, caller: Option<Caller>)
    ensures Allows(attributes, caller, READ) <==> Permits(attributes, caller, Reading)
    ensures Allows(attributes, caller, WRITE) <==> Permits(attributes, caller, Changing)
  {
    DigitBits(attributes.mode, 64);
    DigitBits(attributes.mode, 8);
    DigitBits(attributes.mode, 1);
  }

  /** The bits of an octal digit are bits of the number. */
  lemma {:induction false} DigitBits(mode: int, unit: int)
    requires unit == 64 || unit == 8 || unit == 1
    ensures (mode / unit % 8) / 4 % 2 == mode / (4 * unit) % 2
    ensures (mode / unit % 8) / 2 % 2 == mode / (2 * unit) % 2
  {
    var q := mode / unit;
    LowDigit(q);
    assert q / 4 == mode / (4 * unit);
    assert q / 2 == mode / (2 * unit);
  }

  lemma {:induction false} LowDigit(q: int)
    ensures (q % 8) / 4 % 2 == q / 4 % 2 && (q % 8) / 2 % 2 == q / 2 % 2
  {
    var k, r := q / 8, q % 8;
    LowBit(q / 4, k, r / 4);
    assert q / 2 == 4 * k + r / 2;
    LowBit(q / 2, 2 * k, r / 2);
  }

  lemma {:induction false} LowBit(x: int, k: int, low: int)
    requires x == 2 * k + low
    ensures x % 2 == low % 2
  {
  }

  predicate Owns(attributes: Attributes, caller: Option<Caller>) {
    caller.Some? && !caller.value.isAdmin ==> caller.value.username == attributes.owner
  }

  lemma {:induction false} OwnerOrAdminIsOwns(attributes: Attributes, caller: Option<Caller>)
    ensures OwnerOrAdmin(attributes, caller) <==> Owns(attributes, caller)
  {
  }

  /** Whose a new entry is. */
  function CreatedBy(caller: Option<Caller>, mode: int): Attributes {
    if caller.None? then Attributes("admin", "admin", mode)
    else if caller.value.groups == [] then Attributes(caller.value.username, caller.value.username, mode)
    else Attributes(caller.value.username, caller.value.groups[0], mode)
  }

  lemma {:induction false} OwnershipIsCreatedBy(caller: Option<Caller>)
    ensures Ownership(caller, DIR_MODE) == CreatedBy(caller, 0x1ED)
    ensures Ownership(caller, FILE_MODE) == CreatedBy(caller, 0x1A4)
  {
  }

  // ----- Walks -----

  predicate IsDir(node: Node, path: Path) {
    Lookup(node, path).Some? && Lookup(node, path).value.DirNode?
  }

  predicate IsFile(node: Node, path: Path) {
    Lookup(node, path).Some? && Lookup(node, path).value.FileNode?
  }

  predicate Committed(node: Node, path: Path) {
    IsFile(node, path) && Lookup(node, path).value.file.committed
  }

  predicate Pending(node: Node, path: Path) {
    IsFile(node, path) && !Lookup(node, path).value.file.committed
  }

  function FileOf(node: Node, path: Path): FileRecord
    requires IsFile(node, path)
  {
    Lookup(node, path).value.file
  }

  /** A file where a directory should be. */
  ghost predicate FileInTheWay(node: Node, path: Path) {
    exists i :: 0 < i <= |path| && IsFile(node, path[..i])
  }

  lemma {:induction false} InTheWayBelow(node: Node, path: Path)
    requires path != [] && node.DirNode? && path[0] in node.children && node.children[path[0]].DirNode?
    ensures FileInTheWay(node, path) <==> FileInTheWay(node.children[path[0]], path[1..])
  {
    var child := node.children[path[0]];
    forall i | 0 < i <= |path| ensures Lookup(node, path[..i]) == Lookup(child, path[1..][..i - 1]) {
      assert path[..i][1..] == path[1..][..i - 1];
    }
    if FileInTheWay(child, path[1..]) {
      var i :| 0 < i <= |path[1..]| && IsFile(child, path[1..][..i]);
      assert path[1..][..i] == path[1..][..i + 1 - 1];
      assert IsFile(node, path[..i + 1]);
    }
    if FileInTheWay(node, path) {
      var i :| 0 < i <= |path| && IsFile(node, path[..i]);
      assert IsFile(child, path[1..][..i - 1]) && i != 1;
    }
  }

  lemma {:induction false} FirstStep(node: Node, path: Path)
    requires path != [] && node.DirNode?
    ensures path[0] !in node.children ==> !FileInTheWay(node, path) && Lookup(node, path) == None
    ensures path[0] in node.children && node.children[path[0]].FileNode? ==> FileInTheWay(node, path)
  {
    if path[0] in node.children {
      assert path[..1][1..] == [];
      assert Lookup(node, path[..1]) == Some(node.children[path[0]]);
    } else {
      forall i | 0 < i <= |path| ensures Lookup(node, path[..i]) == None {}
    }
  }

  /** A walk ends in the directory at the path; it stops at the first file it meets, or else
      because there is nothing. */
  lemma {:induction false} WalkExactly(node: Directory, path: Path)
    ensures WalkTo(node, path) == if FileInTheWay(node, path) then Err(NotADirectory)
                                  else if Lookup(node, path).None? then Err(PathNotFound)
                                  else Ok(Lookup(node, path).value)
    decreases |path|
  {
    if path == [] {
    } else {
      FirstStep(node, path);
      if path[0] in node.children && node.children[path[0]].DirNode? {
        InTheWayBelow(node, path);
        WalkExactly(node.children[path[0]], path[1..]);
      }
    }
  }

  /** The last directory of a path that exists has `i` names. */
  ghost predicate Deepest(node: Node, path: Path, i: nat) {
    i <= |path| && IsDir(node, path[..i]) && (i < |path| ==> Lookup(node, path[..i + 1]) == None)
  }

  /** Whoever creates below it needs `w` there. */
  ghost predicate MayGrow(node: Node, path: Path, caller: Option<Caller>) {
    forall i: nat :: Deepest(node, path, i) ==> Permits(AttributesOf(Lookup(node, path[..i]).value), caller, Changing)
  }

  lemma {:induction false} DeepestBelow(node: Node, path: Path, i: nat)
    requires path != [] && node.DirNode? && path[0] in node.children && node.children[path[0]].DirNode?
    ensures var child := node.children[path[0]];
            && !Deepest(node, path, 0)
            && (Deepest(node, path, i + 1) <==> Deepest(child, path[1..], i))
            && (i < |path| ==> Lookup(node, path[..i + 1]) == Lookup(child, path[1..][..i]))
  {
    assert path[..1][1..] == [] && path[..0] == [];
    assert Lookup(node, path[..0 + 1]) == Some(node.children[path[0]]);
    if i < |path| {
      assert path[..i + 1][1..] == path[1..][..i];
    }
    if i + 1 < |path| {
      assert path[..i + 2][1..] == path[1..][..i + 1];
    }
  }

  lemma {:induction false} MayGrowBelow(node: Node, path: Path, caller: Option<Caller>)
    requires path != [] && node.DirNode? && path[0] in node.children && node.children[path[0]].DirNode?
    ensures MayGrow(node, path, caller) <==> MayGrow(node.children[path[0]], path[1..], caller)
  {
    var child := node.children[path[0]];
    forall i: nat
      ensures Deepest(node, path, i + 1) <==> Deepest(child, path[1..], i)
      ensures i < |path| ==> Lookup(node, path[..i + 1]) == Lookup(child, path[1..][..i])
    {
      DeepestBelow(node, path, i);
    }
    DeepestBelow(node, path, 0);
    if MayGrow(child, path[1..], caller) {
      forall i: nat | Deepest(node, path, i)
        ensures Permits(AttributesOf(Lookup(node, path[..i]).value), caller, Changing)
      {
        assert i > 0 && Deepest(node, path, i - 1 + 1);
        assert Deepest(child, path[1..], i - 1);
      }
    }
    if MayGrow(node, path, caller) {
      forall i: nat | Deepest(child, path[1..], i)
        ensures Permits(AttributesOf(Lookup(child, path[1..][..i]).value), caller, Changing)
      {
        assert Deepest(node, path, i + 1);
      }
    }
  }

  lemma {:induction false} MayGrowHere(node: Node, path: Path, caller: Option<Caller>)
    requires node.DirNode? && (path != [] ==> path[0] !in node.children)
    ensures MayGrow(node, path, caller) <==> Permits(node.attributes, caller, Changing)
  {
    assert path[..0] == [];
    forall i: nat | Deepest(node, path, i) ensures i == 0 {
    }
    if path != [] {
      assert path[..1][0] == path[0];
    }
    assert Deepest(node, path, 0);
  }

  /** When the missing directories of a path may be created, and the error otherwise. */
  lemma {:induction false} GrowVerdict(node: Directory, path: Path, caller: Option<Caller>)
    ensures Grow(node, path, caller).Ok? <==> !FileInTheWay(node, path) && MayGrow(node, path, caller)
    ensures Grow(node, path, caller).Err? ==>
              Grow(node, path, caller).error == if FileInTheWay(node, path) then NotADirectory else AccessDenied
    decreases |path|
  {
    AllowsIsPermits(node.attributes, caller);
    if path == [] {
      MayGrowHere(node, path, caller);
    } else {
      FirstStep(node, path);
      if path[0] !in node.children {
        MayGrowHere(node, path, caller);
      } else if node.children[path[0]].DirNode? {
        InTheWayBelow(node, path);
        MayGrowBelow(node, path, caller);
        GrowVerdict(node.children[path[0]], path[1..], caller);
      }
    }
  }

  // ----- Changes, entry by entry -----

  lemma {:induction false} EntryAtPut(node: Node, path: Path, entry: Node, q: Path)
    requires HasParent(node, path)
    ensures EntryAt(Put(node, path, entry), q) ==
            if path <= q then EntryAt(entry, q[|path|..]) else EntryAt(node, q)
    decreases |path|
  {
    if path == [] {
      assert q[0..] == q;
    } else if q == [] {
    } else if q[0] == path[0] {
      if |path| == 1 {
        assert path <= q;
      } else {
        EntryAtPut(node.children[path[0]], path[1..], entry, q[1..]);
        assert path <= q <==> path[1..] <= q[1..];
        if path <= q {
          assert q[|path|..] == q[1..][|path[1..]|..];
        }
      }
    }
  }

  lemma {:induction false} EntryAtDelete(node: Node, path: Path, q: Path)
    requires path != [] && HasParent(node, path)
    ensures EntryAt(Delete(node, path), q) == if path <= q then None else EntryAt(node, q)
    decreases |path|
  {
    if q == [] {
    } else if q[0] == path[0] {
      if |path| == 1 {
        assert path <= q;
      } else {
        EntryAtDelete(node.children[path[0]], path[1..], q[1..]);
        assert path <= q <==> path[1..] <= q[1..];
      }
    }
  }

  /** Below a path there is what its node has below itself. */
  lemma {:induction false} EntryBelow(node: Node, path: Path, q: Path)
    requires path <= q
    ensures Lookup(node, q) == if Lookup(node, path).Some? then Lookup(Lookup(node, path).value, q[|path|..]) else None
  {
    assert q == path + q[|path|..];
    LookupConcat(node, path, q[|path|..]);
  }

  ghost predicate Leaf(node: Node) {
    node.DirNode? ==> node.children == map[]
  }

  lemma {:induction false} BelowLeaf(node: Node, rest: Path)
    requires Leaf(node)
    ensures EntryAt(node, rest) == if rest == [] then Some(EntryOf(node)) else None
  {
  }

  /** Putting a leaf where there was a leaf or nothing changes the entry of one path only. */
  lemma {:induction false} PutLeaf(node: Node, path: Path, entry: Node, q: Path)
    requires HasParent(node, path) && Leaf(entry) && (Lookup(node, path).Some? ==> Leaf(Lookup(node, path).value))
    ensures EntryAt(Put(node, path, entry), q) == if q == path then Some(EntryOf(entry)) else EntryAt(node, q)
  {
    EntryAtPut(node, path, entry, q);
    if path <= q {
      BelowLeaf(entry, q[|path|..]);
      EntryBelow(node, path, q);
      if Lookup(node, path).Some? {
        BelowLeaf(Lookup(node, path).value, q[|path|..]);
      }
      assert q[|path|..] == [] <==> q == path;
    }
  }

  lemma {:induction false} DeleteLeaf(node: Node, path: Path, q: Path)
    requires path != [] && HasParent(node, path) && Lookup(node, path).Some? && Leaf(Lookup(node, path).value)
    ensures EntryAt(Delete(node, path), q) == if q == path then None else EntryAt(node, q)
  {
    EntryAtDelete(node, path, q);
    if path <= q {
      EntryBelow(node, path, q);
      BelowLeaf(Lookup(node, path).value, q[|path|..]);
      assert q[|path|..] == [] <==> q == path;
    }
  }

  /** New attributes, on a file or on a directory, change nothing else. */
  lemma {:induction false} RelabelOne(node: Node, path: Path, attributes: Attributes, q: Path)
    requires Lookup(node, path).Some? && HasParent(node, path)
    ensures var before := Lookup(node, path).value;
            EntryAt(Put(node, path, WithAttributes(before, attributes)), q) ==
            if q != path then EntryAt(node, q)
            else Some(if before.DirNode? then Dir(attributes) else File(before.file.(attributes := attributes)))
  {
    var before := Lookup(node, path).value;
    EntryAtPut(node, path, WithAttributes(before, attributes), q);
    if path <= q {
      EntryBelow(node, path, q);
      assert q[|path|..] == [] <==> q == path;
    }
  }

  lemma {:induction false} ChainEntries(path: Path, caller: Option<Caller>, q: Path)
    ensures EntryAt(Chain(path, caller), q) == if q <= path then Some(Dir(CreatedBy(caller, 0x1ED))) else None
    decreases |path|
  {
    OwnershipIsCreatedBy(caller);
    if path != [] && q != [] && q[0] == path[0] {
      ChainEntries(path[1..], caller, q[1..]);
      assert q <= path <==> q[1..] <= path[1..];
    }
  }

  /** Growth adds the missing directories of the path, owned by whoever creates them, and
      nothing else. */
  lemma {:induction false} GrowEntries(node: Directory, path: Path, caller: Option<Caller>, q: Path)
    requires Grow(node, path, caller).Ok?
    ensures EntryAt(Grow(node, path, caller).value, q) ==
            if EntryAt(node, q).None? && q <= path then Some(Dir(CreatedBy(caller, 0x1ED))) else EntryAt(node, q)
    decreases |path|
  {
    if path != [] && q != [] {
      if q[0] == path[0] {
        assert q <= path <==> q[1..] <= path[1..];
        if path[0] in node.children {
          GrowEntries(node.children[path[0]], path[1..], caller, q[1..]);
        } else {
          ChainEntries(path[1..], caller, q[1..]);
        }
      }
    }
  }

  // ----- What a command leaves -----

  /** Exactly one path has another entry. */
  ghost predicate OnlyEntry(root: Node, root': Node, p: Path, entry: Option<Entry>) {
    forall q :: EntryAt(root', q) == if q == p then entry else EntryAt(root, q)
  }

  /** The nearest directory above a path and its last name. */
  lemma {:induction false} ParentExactly(root: Directory, p: Path)
    requires p != []
    ensures WalkTo(root, Front(p)) == if FileInTheWay(root, Front(p)) then Err(NotADirectory)
                                      else if Lookup(root, Front(p)).None? then Err(PathNotFound)
                                      else Ok(Lookup(root, Front(p)).value)
    ensures WalkTo(root, Front(p)).Ok? ==>
              && HasParent(root, p)
              && Lookup(root, p) == if Last(p) in WalkTo(root, Front(p)).value.children
                                    then Some(WalkTo(root, Front(p)).value.children[Last(p)]) else None
  {
    WalkExactly(root, Front(p));
    if WalkTo(root, Front(p)).Ok? {
      ParentFromWalk(root, p);
      LookupFromParent(root, p);
    }
  }

  lemma {:induction false} CommittedFileIsCommitted(root: Directory, p: Path)
    ensures CommittedFile(root, p) == if Committed(root, p) then Ok(FileOf(root, p)) else Err(PathNotFound)
    ensures PendingFile(root, p) == if Pending(root, p) then Ok(FileOf(root, p)) else Err(PathNotFound)
  {
  }

  /** Replacing a file by another changes that entry only. */
  lemma {:induction false} PutFileExactly(root: Directory, p: Path, file: FileRecord)
    requires IsFile(root, p)
    ensures OnlyEntry(root, PutFile(root, p, file), p, Some(File(file)))
  {
    ParentFromLookup(root, p);
    forall q ensures EntryAt(PutFile(root, p, file), q) == if q == p then Some(File(file)) else EntryAt(root, q) {
      PutLeaf(root, p, FileNode(file), q);
    }
  }
}
