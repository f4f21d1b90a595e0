/** The two recursive walks over the whole tree, and their agreement with path lookup:
    `iter_blocks`, which the re-replicator repairs from, and `referenced_blocks`, which
    the garbage collector must not delete from. */
module Walks {
  import opened Common
  import opened Paths
  import opened Tree
  import opened Mutations
  import opened Effects

  // ----- The text of a path, as the walk builds it -----

  function TextOf(path: Path): string {
    if path == [] then "" else Canonical(path)
  }

  lemma {:induction false} JoinSnoc(parts: seq<string>, last: string, sep: char)
    requires parts != []
    ensures Join(parts + [last], sep) == Join(parts, sep) + [sep] + last
  {
    if |parts| > 1 {
      assert (parts + [last])[1..] == parts[1..] + [last];
      JoinSnoc(parts[1..], last, sep);
    } else {
      assert (parts + [last])[1..] == [last];
    }
  }

  lemma {:induction false} TextOfSnoc(path: Path, name: string)
    ensures TextOf(path + [name]) == TextOf(path) + "/" + name
  {
    if path == [] {
      assert path + [name] == [name];
    } else {
      JoinSnoc(path, name, '/');
    }
  }

  // ----- iter_blocks -----

  datatype Place = Place(path: Path, i: nat)

  /** A block of a committed file, found by path lookup. */
  ghost predicate CommittedBlock(root: Directory, place: Place) {
    CommittedFile(root, place.path).Ok? && place.i < |CommittedFile(root, place.path).value.blocks|
  }

  /** Strictly below `at`, through one of `names`. */
  ghost predicate Below(path: Path, at: Path, names: set<string>) {
    |at| < |path| && path[..|at|] == at && path[|at|] in names
  }

  /** `snapshot` lists, once each, the blocks of the committed files below `at` through `names`. */
  ghost predicate Lists(root: Directory, at: Path, names: set<string>, snapshot: seq<(string, BlockRecord)>,
                        places: seq<Place>) {
    && |snapshot| == |places| && Distinct(places)
    && (forall k :: 0 <= k < |places| ==> ListedRight(root, at, names, snapshot[k], places[k]))
    && forall place :: CommittedBlock(root, place) && Below(place.path, at, names) ==> place in places
  }

  ghost predicate ListedRight(root: Directory, at: Path, names: set<string>, entry: (string, BlockRecord),
        place: Place) {
    && CommittedBlock(root, place) && Below(place.path, at, names)
    && entry == (TextOf(place.path), CommittedFile(root, place.path).value.blocks[place.i])
  }

  lemma {:induction false} ListsBoth(root: Directory, at: Path, done: set<string>, name: string,
        xs: seq<(string, BlockRecord)>, xPlaces: seq<Place>, ys: seq<(string, BlockRecord)>, yPlaces: seq<Place>)
    requires Lists(root, at, done, xs, xPlaces) && Lists(root, at, {name}, ys, yPlaces) && name !in done
    ensures Lists(root, at, done + {name}, xs + ys, xPlaces + yPlaces)
  {
    var places := xPlaces + yPlaces;
    forall k | 0 <= k < |places|
      ensures ListedRight(root, at, done + {name}, (xs + ys)[k], places[k])
    {
      if k < |xPlaces| {
        assert ListedRight(root, at, done, xs[k], xPlaces[k]);
      } else {
        assert ListedRight(root, at, {name}, ys[k - |xs|], yPlaces[k - |xs|]);
      }
    }
    forall i, j | 0 <= i < j < |places| ensures places[i] != places[j] {
      if i < |xPlaces| <= j {
        assert ListedRight(root, at, done, xs[i], xPlaces[i]);
        assert ListedRight(root, at, {name}, ys[j - |xs|], yPlaces[j - |xs|]);
      }
    }
  }

  /** Everything below a directory is everything below it through its own names. */
  lemma {:induction false} BelowChild(root: Directory, node: Directory, at: Path, name: string, path: Path)
    requires Lookup(root, at) == Some(node) && Below(path, at, {name})
    ensures FileAt(root, path) == if name in node.children then FileAt(node.children[name], path[|at| + 1..]) else None
  {
    assert path == at + path[|at|..];
    LookupConcat(root, at, path[|at|..]);
    assert path[|at|..][1..] == path[|at| + 1..];
  }

  lemma {:induction false} SubdirectoryLists(root: Directory, node: Directory, at: Path, name: string,
                          snapshot: seq<(string, BlockRecord)>, places: seq<Place>)
    requires Lookup(root, at) == Some(node) && name in node.children && node.children[name].DirNode?
    requires Lists(root, at + [name], node.children[name].children.Keys, snapshot, places)
    ensures Lists(root, at, {name}, snapshot, places)
  {
    var child := node.children[name];
    var at' := at + [name];
    forall k | 0 <= k < |places| ensures ListedRight(root, at, {name}, snapshot[k], places[k]) {
      assert ListedRight(root, at', child.children.Keys, snapshot[k], places[k]);
      assert places[k].path[..|at|] == places[k].path[..|at'|][..|at|];
    }
    forall place | CommittedBlock(root, place) && Below(place.path, at, {name}) ensures place in places {
      BelowChild(root, node, at, name, place.path);
      var rest := place.path[|at| + 1..];
      assert rest != [] && rest[0] in child.children;
      assert place.path[..|at'|] == at' && place.path[|at'|] == rest[0];
    }
  }

  lemma {:induction false} FileLists(root: Directory, node: Directory, at: Path, name: string,
                  snapshot: seq<(string, BlockRecord)>, places: seq<Place>)
    requires Lookup(root, at) == Some(node) && name in node.children && node.children[name].FileNode?
    requires var blocks := if node.children[name].file.committed then node.children[name].file.blocks else [];
             && |snapshot| == |places| == |blocks|
             && forall k :: 0 <= k < |blocks| ==>
                  snapshot[k] == (TextOf(at + [name]), blocks[k]) && places[k] == Place(at + [name], k)
    ensures Lists(root, at, {name}, snapshot, places)
  {
    var path := at + [name];
    assert Below(path, at, {name}) by {
      assert path[..|at|] == at;
    }
    BelowChild(root, node, at, name, path);
    assert path[|at| + 1..] == [];
    assert FileAt(root, path) == Some(node.children[name].file);
    forall place | CommittedBlock(root, place) && Below(place.path, at, {name}) ensures place in places {
      BelowChild(root, node, at, name, place.path);
      assert place.path[|at| + 1..] == [];
      assert place.path == path;
      assert places[place.i] == place;
    }
  }

  lemma {:induction false} OnlyOwnNames(root: Directory, node: Directory, at: Path, path: Path)
    requires Lookup(root, at) == Some(node) && FileAt(root, path).Some? && |at| < |path| && path[..|at|] == at
    ensures Below(path, at, node.children.Keys)
  {
    BelowChild(root, node, at, path[|at|], path);
  }

  /** The `visit` of `iter_blocks`; `at` is where the walk stands. */
  method VisitCommitted(ghost root: Directory, node: Directory, ghost at: Path, prefix: string)
    returns (snapshot: seq<(string, BlockRecord)>, ghost places: seq<Place>)
    requires Lookup(root, at) == Some(node) && prefix == TextOf(at)
    ensures Lists(root, at, node.children.Keys, snapshot, places)
    decreases node
  {
    snapshot, places := [], [];
    var pending := node.children.Keys;
    ghost var done: set<string> := {};
    while pending != {}
      invariant done !! pending && done + pending == node.children.Keys
      invariant Lists(root, at, done, snapshot, places)
      decreases pending
    {
      var name :| name in pending;
      var child := node.children[name];
      var path := prefix + "/" + name;
      TextOfSnoc(at, name);
      var more: seq<(string, BlockRecord)> := [];
      ghost var morePlaces: seq<Place> := [];
      if child.DirNode? {
        LookupConcat(root, at, [name]);
        more, morePlaces := VisitCommitted(root, child, at + [name], path);
        SubdirectoryLists(root, node, at, name, more, morePlaces);
      } else {
        if child.file.committed {
          for i := 0 to |child.file.blocks|
            invariant |more| == |morePlaces| == i
            invariant forall k :: 0 <= k < i ==>
              more[k] == (path, child.file.blocks[k]) && morePlaces[k] == Place(at + [name], k)
          {
            more, morePlaces := more + [(path, child.file.blocks[i])], morePlaces + [Place(at + [name], i)];
          }
        }
        FileLists(root, node, at, name, more, morePlaces);
      }
      ListsBoth(root, at, done, name, snapshot, places, more, morePlaces);
      snapshot, places := snapshot + more, places + morePlaces;
      pending, done := pending - {name}, done + {name};
    }
    assert done == node.children.Keys;
  }

  /** `places` are the blocks of the committed files, each once, and the snapshot
      reports the block at each place under the text of its path. */
  ghost predicate SnapshotOf(root: Directory, snapshot: seq<(string, BlockRecord)>, places: seq<Place>) {
    && |snapshot| == |places| && Distinct(places)
    && (forall place :: place in places <==> CommittedBlock(root, place))
    && forall k :: 0 <= k < |places| ==>
         (CommittedBlock(root, places[k])
          && snapshot[k] == (TextOf(places[k].path), CommittedFile(root, places[k].path).value.blocks[places[k].i]))
  }

  ghost predicate Reports(root: Directory, entry: (string, BlockRecord), place: Place) {
    CommittedBlock(root, place) && entry == (TextOf(place.path), CommittedFile(root, place.path).value.blocks[place.i])
  }

  /** `iter_blocks` lists exactly the blocks of the committed files, each once. */
  method IterBlocks(root: Directory) returns (snapshot: seq<(string, BlockRecord)>, ghost places: seq<Place>)
    ensures forall entry :: entry in snapshot <==> exists place :: Reports(root, entry, place)
    ensures SnapshotOf(root, snapshot, places)
  {
    snapshot, places := VisitCommitted(root, root, [], "");
    forall k | 0 <= k < |places| ensures ListedRight(root, [], root.children.Keys, snapshot[k], places[k]) {}
    forall place | CommittedBlock(root, place) ensures place in places {
      OnlyOwnNames(root, root, [], place.path);
    }
    SnapshotMembers(root, snapshot, places);
  }

  lemma {:induction false} SnapshotMembers(root: Directory, snapshot: seq<(string, BlockRecord)>, places: seq<Place>)
    requires SnapshotOf(root, snapshot, places)
    ensures forall entry :: entry in snapshot <==> exists place :: Reports(root, entry, place)
  {
    forall entry | entry in snapshot ensures exists place :: Reports(root, entry, place) {
      var k :| 0 <= k < |snapshot| && snapshot[k] == entry;
      assert Reports(root, entry, places[k]);
    }
    forall entry, place | Reports(root, entry, place) ensures entry in snapshot {
      assert place in places;
      var k :| 0 <= k < |places| && places[k] == place;
      assert snapshot[k] == entry;
    }
  }

  // ----- Paths that resolve -----

  ghost predicate FilesHaveCleanPaths(s: State) {
    forall q :: FileAt(s.root, q).Some? ==> Clean(q)
  }

  lemma {:induction false} CleanPathsRun(s: State, ops: seq<Op>)
    requires FilesHaveCleanPaths(s)
    ensures FilesHaveCleanPaths(Run(s, ops))
    decreases |ops|
  {
    if ops != [] {
      var s' := Step(s, ops[0]).0;
      forall q | FileAt(s'.root, q).Some? ensures Clean(q) {
        StepFiles(s, ops[0], q);
        if Target(ops[0]) == Ok(q) {
          PartsIsFilteredSplit(ops[0].path);
        }
      }
      CleanPathsRun(s', ops[1..]);
    }
  }

  /** On every reachable tree the text the walk reports parses back to the path of the
      file, so a command sent with that text reaches the same file. */
  lemma {:induction false} WalkedPathResolves(ops: seq<Op>, path: Path)
    requires FileAt(Run(INITIAL, ops).root, path).Some?
    ensures Parts(TextOf(path)) == Ok(path)
  {
    forall q ensures FileAt(INITIAL.root, q) == None {
      assert Lookup(INITIAL.root, q).Some? ==> q == [];
    }
    CleanPathsRun(INITIAL, ops);
    PartsOfCanonical(path);
  }

  // ----- referenced_blocks -----

  type References = map<string, set<string>>

  ghost predicate Maps(refs: References, id: string, address: string) {
    id in refs && address in refs[id]
  }

  /** Some block of a file, pending or committed, below `at` through `names`. */
  ghost predicate NamedBelow(root: Directory, at: Path, names: set<string>, id: string, address: string) {
    exists path, i :: Below(path, at, names) && NamedAt(root, path, i, id, address)
  }

  ghost predicate NamedAt(root: Directory, path: Path, i: nat, id: string, address: string) {
    var file := FileAt(root, path);
    file.Some? && i < |file.value.blocks| && file.value.blocks[i].id == id && address in file.value.blocks[i].addresses
  }

  function AddAll(refs: References, id: string, addresses: seq<string>): (r: References)
    ensures forall other, a :: Maps(r, other, a) <==> Maps(refs, other, a) || (other == id && a in addresses)
  {
    refs[id := (if id in refs then refs[id] else {}) + set a | a in addresses]
  }

  /** The `visit` of `referenced_blocks`, which fills the dictionary as it goes. */
  method VisitAll(ghost root: Directory, node: Directory, ghost at: Path, refs: References) returns (r: References)
    requires Lookup(root, at) == Some(node)
    ensures forall id, a :: Maps(r, id, a) <==> Maps(refs, id, a) || NamedBelow(root, at, node.children.Keys, id, a)
    decreases node
  {
    r := refs;
    var pending := node.children.Keys;
    ghost var done: set<string> := {};
    while pending != {}
      invariant done !! pending && done + pending == node.children.Keys
      invariant forall id, a :: Maps(r, id, a) <==> Maps(refs, id, a) || NamedBelow(root, at, done, id, a)
      decreases pending
    {
      var name :| name in pending;
      var child := node.children[name];
      ghost var before := r;
      if child.DirNode? {
        LookupConcat(root, at, [name]);
        r := VisitAll(root, child, at + [name], r);
        forall id, a ensures Maps(r, id, a) <==> Maps(before, id, a) || NamedBelow(root, at, {name}, id, a) {
          NamedInSubdirectory(root, node, at, name, id, a);
        }
      } else {
        for i := 0 to |child.file.blocks|
          invariant forall id, a :: Maps(r, id, a) <==> Maps(before, id, a) || NamedByFile(child.file, i, id, a)
        {
          r := AddAll(r, child.file.blocks[i].id, child.file.blocks[i].addresses);
        }
        forall id, a
          ensures NamedByFile(child.file, |child.file.blocks|, id, a) <==> NamedBelow(root, at, {name}, id, a)
        {
          NamedInFile(root, node, at, name, id, a);
        }
      }
      forall id, a ensures NamedBelow(root, at, done + {name}, id, a) <==>
                           NamedBelow(root, at, done, id, a) || NamedBelow(root, at, {name}, id, a)
      {
        NamedBelowUnion(root, at, done, name, id, a);
      }
      pending, done := pending - {name}, done + {name};
    }
    assert done == node.children.Keys;
  }

  ghost predicate NamedByFile(file: FileRecord, count: nat, id: string, address: string) {
    exists i :: 0 <= i < count && i < |file.blocks| && file.blocks[i].id == id && address in file.blocks[i].addresses
  }

  lemma {:induction false} NamedBelowUnion(root: Directory, at: Path, done: set<string>, name: string, id: string,
        a: string)
    ensures NamedBelow(root, at, done + {name}, id, a) <==>
            NamedBelow(root, at, done, id, a) || NamedBelow(root, at, {name}, id, a)
  {
    if NamedBelow(root, at, done + {name}, id, a) {
      var path, i :| Below(path, at, done + {name}) && NamedAt(root, path, i, id, a);
      assert Below(path, at, done) || Below(path, at, {name});
    }
    if NamedBelow(root, at, done, id, a) {
      var path, i :| Below(path, at, done) && NamedAt(root, path, i, id, a);
      assert Below(path, at, done + {name});
    }
    if NamedBelow(root, at, {name}, id, a) {
      var path, i :| Below(path, at, {name}) && NamedAt(root, path, i, id, a);
      assert Below(path, at, done + {name});
    }
  }

  lemma {:induction false} NamedInSubdirectory(root: Directory, node: Directory, at: Path, name: string, id: string,
        a: string)
    requires Lookup(root, at) == Some(node) && name in node.children && node.children[name].DirNode?
    ensures NamedBelow(root, at + [name], node.children[name].children.Keys, id, a) <==>
              NamedBelow(root, at, {name}, id, a)
  {
    var at', names := at + [name], node.children[name].children.Keys;
    if NamedBelow(root, at', names, id, a) {
      var path, i :| Below(path, at', names) && NamedAt(root, path, i, id, a);
      assert path[..|at|] == path[..|at'|][..|at|];
      assert Below(path, at, {name});
    }
    if NamedBelow(root, at, {name}, id, a) {
      var path, i :| Below(path, at, {name}) && NamedAt(root, path, i, id, a);
      BelowChild(root, node, at, name, path);
      var rest := path[|at| + 1..];
      assert rest != [] && rest[0] in node.children[name].children;
      assert path[..|at'|] == at' && path[|at'|] == rest[0];
    }
  }

  lemma {:induction false} NamedInFile(root: Directory, node: Directory, at: Path, name: string, id: string, a: string)
    requires Lookup(root, at) == Some(node) && name in node.children && node.children[name].FileNode?
    ensures var file := node.children[name].file;
            NamedByFile(file, |file.blocks|, id, a) <==> NamedBelow(root, at, {name}, id, a)
  {
    var file, path := node.children[name].file, at + [name];
    assert path[..|at|] == at && path[|at| + 1..] == [];
    BelowChild(root, node, at, name, path);
    if NamedByFile(file, |file.blocks|, id, a) {
      var i :| 0 <= i < |file.blocks| && file.blocks[i].id == id && a in file.blocks[i].addresses;
      assert Below(path, at, {name}) && NamedAt(root, path, i, id, a);
    }
    if NamedBelow(root, at, {name}, id, a) {
      var path', i :| Below(path', at, {name}) && NamedAt(root, path', i, id, a);
      BelowChild(root, node, at, name, path');
      assert path'[|at| + 1..] == [];
    }
  }

  /** A reservation in force names its new blocks at their new nodes. */
  ghost predicate Reserved(writes: map<string, Reservation>, among: set<string>, now: real, id: string,
        address: string) {
    exists w, k :: w in among && ReservedAt(writes, w, k, now, id, address)
  }

  ghost predicate ReservedAt(writes: map<string, Reservation>, w: string, k: nat, now: real, id: string,
        address: string) {
    && w in writes && writes[w].expires > now
    && k < |writes[w].slots| && writes[w].slots[k].blockId == id && address in writes[w].slots[k].addresses
  }

  /** What the metadata assigns at leader time `now`: some file, pending or committed, has
      the block there, or some reservation still in force does. */
  ghost predicate Assigned(s: State, now: real, id: string, address: string) {
    (exists path, i :: NamedAt(s.root, path, i, id, address))
    || (exists w, k :: ReservedAt(s.writes, w, k, now, id, address))
  }

  /** A copy is assigned while some file has the block there, whether committed or pending and
      whatever its lease, or a reservation whose lease is not over has. */
  lemma {:induction false} AssignedExactly(s: State, now: real, id: string, address: string)
    ensures Assigned(s, now, id, address) <==>
            || (exists path :: FileAt(s.root, path).Some? && HasCopyAt(FileAt(s.root, path).value.blocks, id, address))
            || (exists w :: w in s.writes && now < s.writes[w].expires
                            && exists k: nat :: k < |s.writes[w].slots| && s.writes[w].slots[k].blockId == id
                                                && address in s.writes[w].slots[k].addresses)
  {
    if path, i: nat :| NamedAt(s.root, path, i, id, address) {
      assert HasCopyAt(FileAt(s.root, path).value.blocks, id, address);
    }
    if path :| FileAt(s.root, path).Some? && HasCopyAt(FileAt(s.root, path).value.blocks, id, address) {
      var i: nat :| i < |FileAt(s.root, path).value.blocks| && FileAt(s.root, path).value.blocks[i].id == id
                    && address in FileAt(s.root, path).value.blocks[i].addresses;
      assert NamedAt(s.root, path, i, id, address);
    }
    if w, k: nat :| ReservedAt(s.writes, w, k, now, id, address) {
      assert s.writes[w].slots[k].blockId == id;
    }
    if w :| w in s.writes && now < s.writes[w].expires
            && exists k: nat :: k < |s.writes[w].slots| && s.writes[w].slots[k].blockId == id
                                && address in s.writes[w].slots[k].addresses
    {
      var k: nat :| k < |s.writes[w].slots| && s.writes[w].slots[k].blockId == id
                    && address in s.writes[w].slots[k].addresses;
      assert ReservedAt(s.writes, w, k, now, id, address);
    }
  }

  ghost predicate HasCopyAt(blocks: seq<BlockRecord>, id: string, address: string) {
    exists i: nat :: i < |blocks| && blocks[i].id == id && address in blocks[i].addresses
  }

  method ReservedBy(reservation: Reservation, refs: References) returns (r: References)
    ensures forall id, a :: Maps(r, id, a) <==>
              Maps(refs, id, a)
              || (exists k :: 0 <= k < |reservation.slots|
                              && reservation.slots[k].blockId == id && a in reservation.slots[k].addresses)
  {
    r := refs;
    for k := 0 to |reservation.slots|
      invariant forall id, a :: Maps(r, id, a) <==>
                  Maps(refs, id, a)
                  || (exists j :: 0 <= j < k
                                  && reservation.slots[j].blockId == id && a in reservation.slots[j].addresses)
    {
      r := AddAll(r, reservation.slots[k].blockId, reservation.slots[k].addresses);
    }
  }

  /** `referenced_blocks` is exactly what the metadata assigns: every committed and every
      pending block, every reservation in force, and nothing else. */
  method ReferencedBlocks(s: State, now: real) returns (r: References)
    ensures forall id, a :: Maps(r, id, a) <==> Assigned(s, now, id, a)
  {
    r := VisitAll(s.root, s.root, [], map[]);
    forall id, a ensures Maps(r, id, a) <==> exists path, i :: NamedAt(s.root, path, i, id, a) {
      if exists path, i :: NamedAt(s.root, path, i, id, a) {
        var path, i :| NamedAt(s.root, path, i, id, a);
        OnlyOwnNames(s.root, s.root, [], path);
      }
    }
    ghost var files := r;
    var pending := s.writes.Keys;
    ghost var done: set<string> := {};
    while pending != {}
      invariant done !! pending && done + pending == s.writes.Keys
      invariant forall id, a :: Maps(r, id, a) <==> Maps(files, id, a) || Reserved(s.writes, done, now, id, a)
      decreases pending
    {
      var w :| w in pending;
      ghost var before := r;
      if s.writes[w].expires > now {
        r := ReservedBy(s.writes[w], r);
      }
      forall id, a ensures Maps(r, id, a) <==> Maps(files, id, a) || Reserved(s.writes, done + {w}, now, id, a) {
        ReservedUnion(s.writes, done, w, now, id, a);
        if Maps(r, id, a) && !Maps(before, id, a) {
          var k :| 0 <= k < |s.writes[w].slots| && s.writes[w].slots[k].blockId == id
              && a in s.writes[w].slots[k].addresses;
          assert ReservedAt(s.writes, w, k, now, id, a);
        }
      }
      pending, done := pending - {w}, done + {w};
    }
    assert done == s.writes.Keys;
    forall id, a
      ensures Reserved(s.writes, done, now, id, a) <==> exists w, k :: ReservedAt(s.writes, w, k, now, id, a)
    {
      if w, k :| ReservedAt(s.writes, w, k, now, id, a) {
        assert w in done;
      }
    }
  }

  lemma {:induction false} ReservedUnion(writes: map<string, Reservation>, done: set<string>, w: string, now: real,
        id: string, a: string)
    ensures Reserved(writes, done + {w}, now, id, a) <==>
            Reserved(writes, done, now, id, a) || exists k :: ReservedAt(writes, w, k, now, id, a)
  {
    if v, k :| v in done + {w} && ReservedAt(writes, v, k, now, id, a) {
      assert v in done || v == w;
    }
    if Reserved(writes, done, now, id, a) {
      var v, k :| v in done && ReservedAt(writes, v, k, now, id, a);
      assert v in done + {w};
    }
    if k :| ReservedAt(writes, w, k, now, id, a) {
      assert w in done + {w};
    }
  }
}
