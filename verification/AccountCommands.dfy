/** Accounts and permissions from outside: when the four commands succeed, which error comes
    first otherwise, and that nothing else changes. */
module AccountCommands {
  import opened Common
  import opened Paths
  import opened Tree
  import opened Mutations
  import opened Entries
  import opened NamespaceCommands

  /** The state every cluster starts from: an empty root of `admin`, open to all. */
  lemma {:induction false} StartsEmpty(q: Path)
    ensures EntryAt(INITIAL.root, q) == if q == [] then Some(Dir(Attributes("admin", "admin", 0x1FF))) else None
    ensures INITIAL.locks == map[] && INITIAL.writes == map[] && INITIAL.users == map[]
  {
    BelowLeaf(INITIAL.root, q);
  }

  // ----- Accounts -----

  const LETTERS: string := "abcdefghijklmnopqrstuvwxyz"
  const DIGITS: string := "0123456789"

  /** The names the pattern `[a-z_][a-z0-9_-]{0,31}` matches. */
  predicate Matches(name: string) {
    && 0 < |name| < 33 && (name[0] in LETTERS || name[0] == '_')
    && forall c :: c in name[1..] ==> c in LETTERS || c in DIGITS || c == '_' || c == '-'
  }

  lemma {:induction false} CharactersOfNames(c: char)
    ensures c in LETTERS <==> LowerCase(c)
    ensures c in DIGITS <==> Digit(c)
  {
    forall i | 0 <= i < 26 ensures LETTERS[i] == 'a' + (i as char) {
    }
    forall i | 0 <= i < 10 ensures DIGITS[i] == '0' + (i as char) {
    }
    if LowerCase(c) {
      assert LETTERS[(c - 'a') as int] == c;
    }
    if Digit(c) {
      assert DIGITS[(c - '0') as int] == c;
    }
  }

  lemma {:induction false} ValidNameMatches(name: string)
    ensures ValidName(name) <==> Matches(name)
  {
    forall c ensures (c in LETTERS <==> LowerCase(c)) && (c in DIGITS <==> Digit(c)) {
      CharactersOfNames(c);
    }
    if |name| > 0 {
      forall i | 1 <= i < |name| ensures name[i] == name[1..][i - 1] {
      }
      forall i | 0 <= i < |name[1..]| ensures name[1..][i] == name[i + 1] {
      }
    }
  }

  /** An account is made exactly when all names are well formed and the user is new. */
  lemma {:induction false} CreateUserExactly(s: State, op: Op)
    requires op.CreateUserOp?
    ensures if !Matches(op.username) || exists i :: 0 <= i < |op.groups| && !Matches(op.groups[i]) then
              Refuses(s, op, InvalidPath)
            else if op.username in s.users then Refuses(s, op, PathExists)
            else Step(s, op) == (s.(users := s.users[op.username := User(op.hash, op.salt, op.groups, op.isAdmin)]),
                                 Ok(Unit))
  {
    ValidNameMatches(op.username);
    forall i | 0 <= i < |op.groups| ensures ValidName(op.groups[i]) <==> Matches(op.groups[i]) {
      ValidNameMatches(op.groups[i]);
    }
  }

  /** A password changes exactly for an account that exists; its groups and rank stay. */
  lemma {:induction false} ChangePasswordExactly(s: State, op: Op)
    requires op.ChangePasswordOp?
    ensures if op.username !in s.users then Refuses(s, op, PathNotFound)
            else
              var user := s.users[op.username];
              Step(s, op) == (s.(users := s.users[op.username := User(op.hash, op.salt, user.groups, user.isAdmin)]),
                              Ok(Unit))
  {
  }

  // ----- Modes and owners -----

  /** A directory or a committed file: an upload in progress cannot be seen. */
  predicate Visible(root: Node, p: Path) {
    IsDir(root, p) || Committed(root, p)
  }

  function AttributesAt(root: Node, p: Path): Attributes
    requires Visible(root, p)
  {
    AttributesOf(Lookup(root, p).value)
  }

  /** The same entry with other attributes. */
  function Relabelled(entry: Entry, attributes: Attributes): Entry {
    match entry
    case Dir(_) => Dir(attributes)
    case File(file) => File(file.(attributes := attributes))
  }

  lemma {:induction false} RelabelExactly(root: Directory, p: Path, attributes: Attributes)
    requires Visible(root, p)
    ensures VisibleNode(root, p) == Ok(Lookup(root, p).value)
    ensures OnlyEntry(root, Relabel(root, p, attributes), p, Some(Relabelled(EntryAt(root, p).value, attributes)))
  {
    ParentFromLookup(root, p);
    forall q ensures EntryAt(Relabel(root, p, attributes), q)
                     == if q == p then Some(Relabelled(EntryAt(root, p).value, attributes)) else EntryAt(root, q)
    {
      RelabelOne(root, p, attributes, q);
    }
  }

  function ChmodError(s: State, op: Op): Option<Error>
    requires op.ChmodOp?
  {
    if Parts(op.path).Err? then Some(InvalidPath)
    else if !Visible(s.root, Parts(op.path).value) then Some(PathNotFound)
    else if !Owns(AttributesAt(s.root, Parts(op.path).value), op.caller) then Some(AccessDenied)
    else if op.newMode < 0 || op.newMode > 0x1FF then Some(InvalidPath)
    else None
  }

  lemma {:induction false} ChmodExactly(s: State, op: Op)
    requires op.ChmodOp?
    ensures var error := ChmodError(s, op);
            if error.Some? then Refuses(s, op, error.value)
            else
              var p := Parts(op.path).value;
              Changes(s, op, Unit, p,
                      Some(Relabelled(EntryAt(s.root, p).value, AttributesAt(s.root, p).(mode := op.newMode))))
  {
    if Parts(op.path).Ok? {
      var p := Parts(op.path).value;
      if Visible(s.root, p) {
        OwnerOrAdminIsOwns(AttributesAt(s.root, p), op.caller);
        RelabelExactly(s.root, p, AttributesAt(s.root, p).(mode := op.newMode));
      }
    }
  }

  /** An administrator may change both; an owner the group, to one of its own. */
  predicate MayChown(attributes: Attributes, op: Op)
    requires op.ChownOp?
  {
    op.caller.None? || op.caller.value.isAdmin
    || (op.newOwner == ""
        && (op.newGroup == ""
            || (op.caller.value.username == attributes.owner && op.newGroup in op.caller.value.groups)))
  }

  function ChownError(s: State, op: Op): Option<Error>
    requires op.ChownOp?
  {
    if Parts(op.path).Err? then Some(InvalidPath)
    else if !Visible(s.root, Parts(op.path).value) then Some(PathNotFound)
    else if op.newOwner == "" && op.newGroup == "" then Some(InvalidPath)
    else if !MayChown(AttributesAt(s.root, Parts(op.path).value), op) then Some(AccessDenied)
    else if op.newOwner != "" && op.newOwner !in s.users then Some(PathNotFound)
    else if op.newGroup != "" && !Matches(op.newGroup) then Some(InvalidPath)
    else None
  }

  function Chowned(attributes: Attributes, op: Op): Attributes
    requires op.ChownOp?
  {
    Attributes(if op.newOwner == "" then attributes.owner else op.newOwner,
               if op.newGroup == "" then attributes.group else op.newGroup, attributes.mode)
  }

  lemma {:induction false} ChownExactly(s: State, op: Op)
    requires op.ChownOp?
    ensures var error := ChownError(s, op);
            if error.Some? then Refuses(s, op, error.value)
            else
              var p := Parts(op.path).value;
              Changes(s, op, Unit, p,
                      Some(Relabelled(EntryAt(s.root, p).value, Chowned(AttributesAt(s.root, p), op))))
  {
    if Parts(op.path).Ok? {
      var p := Parts(op.path).value;
      ValidNameMatches(op.newGroup);
      if Visible(s.root, p) {
        RelabelExactly(s.root, p, Chowned(AttributesAt(s.root, p), op));
      }
    }
  }
}
