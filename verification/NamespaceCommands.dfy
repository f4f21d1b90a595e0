/** Directories and removals from outside: when mkdir, rmdir and remove succeed, which error
    comes first otherwise, and that nothing but the named entry changes. */
module NamespaceCommands {
  import opened Common
  import opened Paths
  import opened Tree
  import opened Mutations
  import opened Entries
  import opened LockCommands

  /** What stops a change of the entry at `p`, before the entry is looked at: the path to its
      directory, and `w` on that directory. */
  ghost function ParentError(s: State, p: Path, caller: Option<Caller>): Option<Error>
    requires p != []
  {
    if FileInTheWay(s.root, Front(p)) then Some(NotADirectory)
    else if Lookup(s.root, Front(p)).None? then Some(PathNotFound)
    else if !Permits(AttributesOf(Lookup(s.root, Front(p)).value), caller, Changing) then Some(AccessDenied)
    else None
  }

  /** A refusal that leaves the whole state. */
  ghost predicate Refuses(s: State, op: Op, error: Error) {
    Step(s, op) == (s, Err(error))
  }

  /** A success that changes one entry and nothing else. */
  ghost predicate Changes(s: State, op: Op, answer: Value, p: Path, entry: Option<Entry>) {
    && Step(s, op).1 == Ok(answer) && Step(s, op).0 == s.(root := Step(s, op).0.root)
    && OnlyEntry(s.root, Step(s, op).0.root, p, entry)
  }

  // ----- mkdir -----

  ghost function MakeDirError(s: State, op: Op): Option<Error>
    requires op.MakeDirOp?
  {
    if Parts(op.path).Err? then Some(InvalidPath)
    else
      var p := Parts(op.path).value;
      if p == [] then Some(PathExists)
      else if ParentError(s, p, op.caller).Some? then ParentError(s, p, op.caller)
      else if EntryAt(s.root, p).Some? then Some(PathExists)
      else None
  }

  lemma {:induction false} MakeDirExactly(s: State, op: Op)
    requires op.MakeDirOp?
    ensures var error := MakeDirError(s, op);
            if error.Some? then Refuses(s, op, error.value)
            else Changes(s, op, Unit, Parts(op.path).value, Some(Dir(CreatedBy(op.caller, 0x1ED))))
  {
    if Parts(op.path).Ok? && Parts(op.path).value != [] {
      var p := Parts(op.path).value;
      ParentExactly(s.root, p);
      if WalkTo(s.root, Front(p)).Ok? {
        AllowsIsPermits(WalkTo(s.root, Front(p)).value.attributes, op.caller);
        OwnershipIsCreatedBy(op.caller);
        if Lookup(s.root, p).None? {
          forall q ensures EntryAt(Put(s.root, p, DirNode(map[], Ownership(op.caller, DIR_MODE))), q)
                           == if q == p then Some(Dir(CreatedBy(op.caller, 0x1ED))) else EntryAt(s.root, q)
          {
            PutLeaf(s.root, p, DirNode(map[], Ownership(op.caller, DIR_MODE)), q);
          }
        }
      }
    }
  }

  // ----- rmdir -----

  ghost function RemoveDirError(s: State, op: Op): Option<Error>
    requires op.RemoveDirOp?
  {
    if Parts(op.path).Err? then Some(InvalidPath)
    else
      var p := Parts(op.path).value;
      if p == [] then Some(InvalidPath)
      else if ParentError(s, p, op.caller).Some? then ParentError(s, p, op.caller)
      else if Lookup(s.root, p).None? then Some(PathNotFound)
      else if IsFile(s.root, p) then Some(NotADirectory)
      else if exists name :: EntryAt(s.root, p + [name]).Some? then Some(NotEmpty)
      else None
  }

  /** A directory has no child exactly when nothing lies one name below it. */
  lemma {:induction false} EmptyExactly(root: Node, p: Path)
    requires IsDir(root, p)
    ensures Lookup(root, p).value.children == map[] <==> !exists name :: EntryAt(root, p + [name]).Some?
  {
    var children := Lookup(root, p).value.children;
    forall name ensures EntryAt(root, p + [name]).Some? <==> name in children {
      LookupConcat(root, p, [name]);
      assert [name][1..] == [];
    }
    if children != map[] {
      assert children.Keys != {};
      var name :| name in children.Keys;
      assert EntryAt(root, p + [name]).Some?;
    }
  }

  lemma {:induction false} RemoveDirExactly(s: State, op: Op)
    requires op.RemoveDirOp?
    ensures var error := RemoveDirError(s, op);
            if error.Some? then Refuses(s, op, error.value) else Changes(s, op, Unit, Parts(op.path).value, None)
  {
    if Parts(op.path).Ok? && Parts(op.path).value != [] {
      var p := Parts(op.path).value;
      ParentExactly(s.root, p);
      if WalkTo(s.root, Front(p)).Ok? {
        AllowsIsPermits(WalkTo(s.root, Front(p)).value.attributes, op.caller);
        if IsDir(s.root, p) {
          EmptyExactly(s.root, p);
          if Lookup(s.root, p).value.children == map[] {
            DeleteExactly(s.root, p);
          }
        }
      }
    }
  }

  lemma {:induction false} DeleteExactly(root: Directory, p: Path)
    requires p != [] && HasParent(root, p) && Lookup(root, p).Some? && Leaf(Lookup(root, p).value)
    ensures OnlyEntry(root, Delete(root, p), p, None)
  {
    forall q ensures EntryAt(Delete(root, p), q) == if q == p then None else EntryAt(root, q) {
      DeleteLeaf(root, p, q);
    }
  }

  // ----- remove -----

  /** Everything but the locks is in order. */
  ghost function RemoveError(s: State, op: Op): Option<Error>
    requires op.RemoveFileOp?
  {
    if Parts(op.path).Err? then Some(InvalidPath)
    else
      var p := Parts(op.path).value;
      if p == [] then Some(InvalidPath)
      else if ParentError(s, p, op.caller).Some? then ParentError(s, p, op.caller)
      else if IsDir(s.root, p) then Some(NotAFile)
      else if !Committed(s.root, p) then Some(PathNotFound)
      else None
  }

  /** A file is removed, and its blocks handed over, exactly when no lease on it is in force. */
  lemma {:induction false} RemoveFileExactly(s: State, op: Op)
    requires op.RemoveFileOp?
    ensures var error := RemoveError(s, op);
            if error.Some? then Refuses(s, op, error.value)
            else
              var p, s' := Parts(op.path).value, Step(s, op).0;
              if LiveAt(s, p, op.now) != map[] then Leaves(s, op, Err(Conflict), OnlyLive(s, p, op.now))
              else && Step(s, op).1 == Ok(Removed(FileOf(s.root, p).blocks))
                   && s' == s.(root := s'.root, locks := s.locks - {p}) && OnlyEntry(s.root, s'.root, p, None)
  {
    if Parts(op.path).Ok? && Parts(op.path).value != [] {
      var p := Parts(op.path).value;
      ParentExactly(s.root, p);
      CleanedIsOnlyLive(s, p, op.now);
      if WalkTo(s.root, Front(p)).Ok? {
        AllowsIsPermits(WalkTo(s.root, Front(p)).value.attributes, op.caller);
        if Committed(s.root, p) {
          DeleteExactly(s.root, p);
        }
      }
    }
  }
}
