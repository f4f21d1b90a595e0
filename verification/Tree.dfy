/** The namespace of the ControlNode: directories, files, their permissions, and
    lookup and update along a path. */
module Tree {
  import opened Common
  import opened Paths

  const DEFAULT_OWNER: string := "admin"
  const DIR_MODE: int := 493   // 0o755
  const FILE_MODE: int := 420  // 0o644
  const ROOT_MODE: int := 511  // 0o777
  const MAX_MODE: int := 511
  const READ: int := 4
  const WRITE: int := 2

  /** Who calls, as it travels in a replicated command. `None` means that
      authentication is off, and nothing is checked. */
  datatype Caller = Caller(username: string, groups: seq<string>, isAdmin: bool)

  datatype Attributes = Attributes(owner: string, group: string, mode: int)

  datatype BlockRecord = BlockRecord(
    id: string, addresses: seq<string>, checksum: string, size: int, confirmed: bool)

  datatype FileRecord = FileRecord(
    committed: bool, blocks: seq<BlockRecord>, leaseExpiresAt: real,
    version: nat, blockSize: nat, attributes: Attributes)

  datatype Node =
    | DirNode(children: map<string, Node>, attributes: Attributes)
    | FileNode(file: FileRecord)

  type Directory = n: Node | n.DirNode?
    witness DirNode(map[], Attributes(DEFAULT_OWNER, DEFAULT_OWNER, ROOT_MODE))

  function AttributesOf(node: Node): Attributes {
    match node
    case DirNode(_, attributes) => attributes
    case FileNode(file) => file.attributes
  }

  function WithAttributes(node: Node, attributes: Attributes): (r: Node)
    ensures AttributesOf(r) == attributes
    ensures node.DirNode? ==> r.DirNode? && r.children == node.children
    ensures node.FileNode? ==> r.FileNode? && r.file == node.file.(attributes := attributes)
  {
    match node
    case DirNode(children, _) => DirNode(children, attributes)
    case FileNode(file) => FileNode(file.(attributes := attributes))
  }

  // ----- Permissions -----

  /** The class a caller falls in: 2 owner, 1 group, 0 other. */
  function ClassOf(attributes: Attributes, c: Caller): nat {
    if c.username == attributes.owner then 2 else if attributes.group in c.groups then 1 else 0
  }

  /** The octal digit of a mode for a class. */
  function DigitOf(mode: int, class_: nat): int
    requires class_ <= 2
  {
    (if class_ == 2 then mode / 64 else if class_ == 1 then mode / 8 else mode) % 8
  }

  predicate DigitGrants(digit: int, want: int)
    requires want == READ || want == WRITE
  {
    (digit / want) % 2 == 1
  }

  /** Exclusive classes, as in Unix: the owner uses only the owner's bits. */
  predicate Allows(attributes: Attributes, caller: Option<Caller>, want: int)
    requires want == READ || want == WRITE
  {
    caller.None? || caller.value.isAdmin
    || DigitGrants(DigitOf(attributes.mode, ClassOf(attributes, caller.value)), want)
  }

  predicate OwnerOrAdmin(attributes: Attributes, caller: Option<Caller>) {
    caller.None? || caller.value.isAdmin || caller.value.username == attributes.owner
  }

  /** Owner and group of a new node: its creator and the creator's first group. */
  function Ownership(caller: Option<Caller>, mode: int): Attributes {
    match caller
    case None => Attributes(DEFAULT_OWNER, DEFAULT_OWNER, mode)
    case Some(c) => Attributes(c.username, if c.groups != [] then c.groups[0] else c.username, mode)
  }

  // ----- Lookup -----

  /** `ControlTree._get_node`. */
  function Lookup(node: Node, path: Path): Option<Node>
    decreases |path|
  {
    if path == [] then Some(node)
    else if node.DirNode? && path[0] in node.children then Lookup(node.children[path[0]], path[1..])
    else None
  }

  /** The file a path resolves to, if it resolves to one. */
  function FileAt(node: Node, path: Path): Option<FileRecord> {
    var found := Lookup(node, path);
    if found.Some? && found.value.FileNode? then Some(found.value.file) else None
  }

  /** `ControlTree._walk_to_parent` without `create`: the directory, or what stops the walk. */
  function WalkTo(node: Directory, path: Path): Result<Directory>
    decreases |path|
  {
    if path == [] then Ok(node)
    else if path[0] !in node.children then Err(PathNotFound)
    else if !node.children[path[0]].DirNode? then Err(NotADirectory)
    else WalkTo(node.children[path[0]], path[1..])
  }

  lemma {:induction false} WalkIsLookup(node: Directory, path: Path)
    ensures WalkTo(node, path).Ok? <==> Lookup(node, path).Some? && Lookup(node, path).value.DirNode?
    ensures WalkTo(node, path).Ok? ==> Lookup(node, path) == Some(WalkTo(node, path).value)
    decreases |path|
  {
    if path != [] && path[0] in node.children {
      var child := node.children[path[0]];
      if child.DirNode? {
        WalkIsLookup(child, path[1..]);
      }
    }
  }

  lemma {:induction false} LookupConcat(node: Node, prefix: Path, rest: Path)
    ensures Lookup(node, prefix + rest) ==
            if Lookup(node, prefix).Some? then Lookup(Lookup(node, prefix).value, rest) else None
    decreases |prefix|
  {
    if prefix == [] {
      assert prefix + rest == rest;
    } else {
      assert (prefix + rest)[1..] == prefix[1..] + rest;
      if node.DirNode? && prefix[0] in node.children {
        LookupConcat(node.children[prefix[0]], prefix[1..], rest);
      }
    }
  }

  function Front(path: Path): Path
    requires path != []
  {
    path[..|path| - 1]
  }

  function Last(path: Path): string
    requires path != []
  {
    path[|path| - 1]
  }

  /** The entry of the last name, seen from the directory the walk ends in. */
  lemma {:induction false} LookupFromParent(node: Directory, path: Path)
    requires path != [] && WalkTo(node, Front(path)).Ok?
    ensures var parent := WalkTo(node, Front(path)).value;
            Lookup(node, path) == if Last(path) in parent.children then Some(parent.children[Last(path)]) else None
  {
    var parent := WalkTo(node, Front(path)).value;
    WalkIsLookup(node, Front(path));
    LookupConcat(node, Front(path), [Last(path)]);
    assert path == Front(path) + [Last(path)];
    if Last(path) in parent.children {
      assert Lookup(parent.children[Last(path)], [Last(path)][1..]) == Some(parent.children[Last(path)]);
    }
  }

  // ----- Update -----

  /** Whether `path` may be put: every component but the last is a directory. */
  predicate HasParent(node: Node, path: Path)
    decreases |path|
  {
    path == []
    || (node.DirNode? && (|path| == 1 || (path[0] in node.children && HasParent(node.children[path[0]], path[1..]))))
  }

  /** The tree with `entry` at `path`. */
  function Put(node: Node, path: Path, entry: Node): (r: Node)
    requires HasParent(node, path)
    ensures path != [] ==> r.DirNode? && r.attributes == node.attributes
    decreases |path|
  {
    if path == [] then entry
    else if |path| == 1 then node.(children := node.children[path[0] := entry])
    else node.(children := node.children[path[0] := Put(node.children[path[0]], path[1..], entry)])
  }

  /** The tree without the entry at `path`. */
  function Delete(node: Node, path: Path): (r: Node)
    requires path != [] && HasParent(node, path)
    ensures r.DirNode? && r.attributes == node.attributes
    decreases |path|
  {
    if |path| == 1 then node.(children := node.children - {path[0]})
    else node.(children := node.children[path[0] := Delete(node.children[path[0]], path[1..])])
  }

  lemma {:induction false} ParentFromWalk(node: Directory, path: Path)
    requires path != [] && WalkTo(node, Front(path)).Ok?
    ensures HasParent(node, path)
    decreases |path|
  {
    if |path| > 1 {
      assert Front(path)[1..] == Front(path[1..]);
      ParentFromWalk(node.children[path[0]], path[1..]);
    }
  }

  lemma {:induction false} ParentFromLookup(node: Node, path: Path)
    requires Lookup(node, path).Some?
    ensures HasParent(node, path)
    decreases |path|
  {
    if |path| > 1 {
      ParentFromLookup(node.children[path[0]], path[1..]);
    }
  }

  /** The files after a put: those of the new entry below `path`, the old ones elsewhere. */
  lemma {:induction false} FileAtPut(node: Node, path: Path, entry: Node, q: Path)
    requires HasParent(node, path)
    ensures FileAt(Put(node, path, entry), q) ==
            if path <= q then FileAt(entry, q[|path|..]) else FileAt(node, q)
    decreases |path|
  {
    if path == [] {
      assert q[0..] == q;
    } else if q == [] {
    } else if q[0] == path[0] {
      if |path| == 1 {
        assert path <= q;
      } else {
        FileAtPut(node.children[path[0]], path[1..], entry, q[1..]);
        assert path <= q <==> path[1..] <= q[1..];
        if path <= q {
          assert q[|path|..] == q[1..][|path[1..]|..];
        }
      }
    }
  }

  lemma {:induction false} FileAtDelete(node: Node, path: Path, q: Path)
    requires path != [] && HasParent(node, path)
    ensures FileAt(Delete(node, path), q) == if path <= q then None else FileAt(node, q)
    decreases |path|
  {
    if q == [] {
    } else if q[0] == path[0] {
      if |path| == 1 {
        assert path <= q;
      } else {
        FileAtDelete(node.children[path[0]], path[1..], q[1..]);
        assert path <= q <==> path[1..] <= q[1..];
      }
    }
  }

  /** Below a file there is nothing. */
  lemma {:induction false} NothingBelowAFile(node: Node, path: Path, q: Path)
    requires FileAt(node, path).Some? && path <= q && q != path
    ensures FileAt(node, q) == None
  {
    assert q == path + q[|path|..];
    LookupConcat(node, path, q[|path|..]);
  }

  lemma {:induction false} NothingBelowNothing(node: Node, path: Path, q: Path)
    requires Lookup(node, path) == None && path <= q
    ensures FileAt(node, q) == None
  {
    assert q == path + q[|path|..];
    LookupConcat(node, path, q[|path|..]);
  }

  /** Putting a file where there was a file or nothing changes one path only. */
  lemma {:induction false} FilesAfterPutFile(node: Node, path: Path, file: FileRecord, q: Path)
    requires HasParent(node, path)
    requires Lookup(node, path).Some? ==> Lookup(node, path).value.FileNode?
    ensures FileAt(Put(node, path, FileNode(file)), q) == if q == path then Some(file) else FileAt(node, q)
  {
    FileAtPut(node, path, FileNode(file), q);
    if path <= q && q != path {
      if Lookup(node, path).Some? {
        NothingBelowAFile(node, path, q);
      } else {
        NothingBelowNothing(node, path, q);
      }
    } else if q == path {
      assert q[|path|..] == [];
    }
  }

  /** Deleting a file changes one path only. */
  lemma {:induction false} FilesAfterDeleteFile(node: Node, path: Path, q: Path)
    requires path != [] && FileAt(node, path).Some? && HasParent(node, path)
    ensures FileAt(Delete(node, path), q) == if q == path then None else FileAt(node, q)
  {
    FileAtDelete(node, path, q);
    if path <= q && q != path {
      NothingBelowAFile(node, path, q);
    }
  }

  /** An empty directory appears or disappears without touching any file. */
  lemma {:induction false} FilesAfterEmptyDir(node: Node, path: Path, entry: Node, q: Path)
    requires path != [] && HasParent(node, path)
    requires entry.DirNode? && entry.children == map[]
    ensures Lookup(node, path) == None ==> FileAt(Put(node, path, entry), q) == FileAt(node, q)
    ensures Lookup(node, path) == Some(entry) ==> FileAt(Delete(node, path), q) == FileAt(node, q)
  {
    FileAtPut(node, path, entry, q);
    FileAtDelete(node, path, q);
    if path <= q {
      assert q == path + q[|path|..];
      LookupConcat(node, path, q[|path|..]);
    }
  }

  /** Re-labelling a node changes no file except, possibly, its own attributes. */
  lemma {:induction false} FilesAfterRelabel(node: Node, path: Path, attributes: Attributes, q: Path)
    requires Lookup(node, path).Some? && HasParent(node, path)
    ensures var after := FileAt(Put(node, path, WithAttributes(Lookup(node, path).value, attributes)), q);
            after == if q == path && FileAt(node, q).Some?
                     then Some(FileAt(node, q).value.(attributes := attributes)) else FileAt(node, q)
  {
    var old_ := Lookup(node, path).value;
    var entry := WithAttributes(old_, attributes);
    FileAtPut(node, path, entry, q);
    if path <= q {
      var rest := q[|path|..];
      assert q == path + rest;
      LookupConcat(node, path, rest);
      assert rest == [] <==> q == path;
      assert Lookup(node, q) == Lookup(old_, rest);
    }
  }

  // ----- Creating the missing directories of an upload -----

  /** A chain of new directories, one inside the other. */
  function Chain(path: Path, caller: Option<Caller>): Directory
    decreases |path|
  {
    DirNode(if path == [] then map[] else map[path[0] := Chain(path[1..], caller)],
            Ownership(caller, DIR_MODE))
  }

  /** `ControlTree._walk_to_parent` with `create`: the tree with the missing directories,
      provided the last directory that already existed grants `w`. */
  function Grow(node: Directory, path: Path, caller: Option<Caller>): (r: Result<Directory>)
    decreases |path|
  {
    if path == [] then
      if Allows(node.attributes, caller, WRITE) then Ok(node) else Err(AccessDenied)
    else if path[0] in node.children then
      var child := node.children[path[0]];
      if !child.DirNode? then Err(NotADirectory)
      else
        var grown := Grow(child, path[1..], caller);
        if grown.Err? then grown
        else Ok(DirNode(node.children[path[0] := grown.value], node.attributes))
    else if !Allows(node.attributes, caller, WRITE) then Err(AccessDenied)
    else Ok(DirNode(node.children[path[0] := Chain(path[1..], caller)], node.attributes))
  }

  lemma {:induction false} ChainHoldsNoFile(path: Path, caller: Option<Caller>, q: Path)
    ensures FileAt(Chain(path, caller), q) == None
    ensures WalkTo(Chain(path, caller), path) == Ok(Chain([], caller))
    decreases |path|
  {
    if path != [] {
      ChainHoldsNoFile(path[1..], caller, if q == [] then [] else q[1..]);
    }
  }

  /** Growing the tree adds directories only, and makes the whole walk succeed. */
  lemma {:induction false} GrowKeepsFiles(node: Directory, path: Path, caller: Option<Caller>, q: Path)
    requires Grow(node, path, caller).Ok?
    ensures FileAt(Grow(node, path, caller).value, q) == FileAt(node, q)
    ensures WalkTo(Grow(node, path, caller).value, path).Ok?
    decreases |path|
  {
    if path != [] {
      var rest := if q == [] then [] else q[1..];
      if path[0] in node.children {
        GrowKeepsFiles(node.children[path[0]], path[1..], caller, rest);
      } else {
        ChainHoldsNoFile(path[1..], caller, rest);
      }
    }
  }

  /** If anything was created, the last directory is new, hence empty. */
  lemma {:induction false} GrowLeavesTreeOrEmptyDir(node: Directory, path: Path, caller: Option<Caller>)
    requires Grow(node, path, caller).Ok?
    ensures var grown := Grow(node, path, caller).value;
            grown == node || (WalkTo(grown, path).Ok? && WalkTo(grown, path).value.children == map[])
    decreases |path|
  {
    if path != [] {
      if path[0] in node.children {
        GrowLeavesTreeOrEmptyDir(node.children[path[0]], path[1..], caller);
      } else {
        ChainHoldsNoFile(path[1..], caller, []);
      }
    }
  }
}
