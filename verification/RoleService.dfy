/** Creating, updating and declaring roles. */
module RoleService {
  import opened Results
  import opened Entries
  import opened Model
  import opened Graphs
  import opened Invariants
  import opened Assignments

  /** A list that is null in the request is `None` for child roles, and empty for functions, which
      the service treats alike. */
  datatype RoleSubmit = RoleSubmit(name: Name, description: Text, functions: seq<Name>, roles: Option<seq<Name>>)

  /** Overwrites one role; child roles that are not submitted stay as they are. */
  function AfterWrite(s: Store, name: Name, description: Text, functions: seq<Name>,
                      children: Option<seq<Name>>): Result<Store> {
    var kept := if name in s.roles then s.roles[name].children else {};
    CheckPresent(s.functions.Keys, functions).Then(
      CheckLeaves(RoleGraph(s), OptionalNames(children)).Then(
        CheckKeys(name, functions).Then(
          CheckKeys(name, OptionalNames(children)).Then(
            Ok(s.(roles := s.roles[name := Role(description, Elements(functions),
                                                if children.Some? then Elements(children.value) else kept)]))))))
  }

  function AfterCreate(s: Store, submit: RoleSubmit): Result<Store> {
    if submit.name in s.roles then Err(NotProcessable(submit.name))
    else AfterWrite(s, submit.name, submit.description, submit.functions, submit.roles)
  }

  /** The rows referring to a role keep referring to it under its new name. */
  function AfterRename(s: Store, from: Name, to: Name): Store
    requires from in s.roles
  {
    if from == to then s else
      s.(roles := map r | r in s.roles.Keys - {from} + {to} ::
                    var role := s.roles[Renamed(r, to, from)]; role.(children := RenameIn(role.children, from, to)),
         users := map u | u in s.users :: s.users[u].(roles := RenameIn(s.users[u].roles, from, to)))
  }

  function AfterUpdate(s: Store, target: Name, submit: RoleSubmit): Result<Store> {
    if target !in s.roles then Err(NotFound(target))
    else if target != submit.name && submit.name in s.roles then Err(NotProcessable(submit.name))
    else
      var t := AfterRename(s, target, submit.name);
      AfterWrite(t, submit.name, submit.description, submit.functions, submit.roles)
  }

  /** Rebuilds the association rows of a role that is not saved yet. */
  method AssignRows(tracked: Store, name: Name, description: Text, functions: seq<Name>, children: Option<seq<Name>>)
    returns (r: Outcome, role: Role)
    ensures Realises(r, tracked.(roles := tracked.roles[name := role]),
            AfterWrite(tracked, name, description, functions, children))
  {
    role := if name in tracked.roles then tracked.roles[name] else Role(description, {}, {});
    var functionRows, childRows: seq<Name>;
    r, functionRows := AssignPresent(tracked.functions.Keys, functions);
    if r.Fail? {
      return;
    }
    role := role.(description := description, functions := Elements(functionRows));
    childRows := [];
    if children.Some? {
      r, childRows := AssignLeaves(RoleGraph(tracked), children.value);
      role := role.(children := Elements(childRows));
    }
    if r.Pass? && (!Distinct(functionRows) || !Distinct(childRows)) {
      r := Fail(Conflict(name));
    }
  }

  method Create(db: A3SContext, submit: RoleSubmit) returns (r: Outcome)
    modifies db`roles
    ensures Realises(r, db.State(), AfterCreate(old(db.State()), submit))
    ensures r.Fail? ==> db.State() == old(db.State())
  {
    if submit.name in db.roles {
      return Fail(NotProcessable(submit.name));
    }
    var role: Role;
    r, role := AssignRows(db.State(), submit.name, submit.description, submit.functions, submit.roles);
    if r.Pass? {
      db.roles := db.roles[submit.name := role];
    }
  }

  method Update(db: A3SContext, target: Name, submit: RoleSubmit) returns (r: Outcome)
    modifies db`roles, db`users
    ensures Realises(r, db.State(), AfterUpdate(old(db.State()), target, submit))
    ensures r.Fail? ==> db.State() == old(db.State())
  {
    if target !in db.roles {
      return Fail(NotFound(target));
    }
    if target != submit.name && submit.name in db.roles {
      return Fail(NotProcessable(submit.name));
    }
    var tracked := AfterRename(db.State(), target, submit.name);
    var role: Role;
    r, role := AssignRows(tracked, submit.name, submit.description, submit.functions, submit.roles);
    if r.Pass? {
      db.roles, db.users := tracked.roles[submit.name := role], tracked.users;
    }
  }

  lemma WriteKeepsSound(s: Store, name: Name, description: Text, functions: seq<Name>, children: Option<seq<Name>>)
    requires Sound(s) && AfterWrite(s, name, description, functions, children).Ok?
    ensures Sound(AfterWrite(s, name, description, functions, children).value)
  {
    hide NoLongCycle;
    var t := AfterWrite(s, name, description, functions, children).value;
    assert TeamGraph(t) == TeamGraph(s);
    assert RoleGraph(t) == RoleGraph(s)[name := t.roles[name].children];
    if children.Some? {
      AssignmentClosesNoCycle(RoleGraph(s), name, t.roles[name].children);
    } else if name in s.roles {
      assert RoleGraph(t) == RoleGraph(s);
    } else {
      AssignmentClosesNoCycle(RoleGraph(s), name, {});
    }
  }

  lemma RenameKeepsRows(s: Store, from: Name, to: Name)
    requires WellFormed(s) && PermissionsHeld(s) && TeamsDisjoint(s) && from in s.roles && from != to && to !in s.roles
    ensures var t := AfterRename(s, from, to); WellFormed(t) && PermissionsHeld(t) && TeamsDisjoint(t)
  {
  }

  lemma RenameInGraph(s: Store, from: Name, to: Name)
    requires from in s.roles && from != to && to !in s.roles
    ensures RoleGraph(AfterRename(s, from, to)) == RenameNode(RoleGraph(s), from, to)
    ensures TeamGraph(AfterRename(s, from, to)) == TeamGraph(s)
  {
  }

  lemma RenameKeepsSound(s: Store, from: Name, to: Name)
    requires Sound(s) && from in s.roles && (from == to || to !in s.roles)
    ensures Sound(AfterRename(s, from, to))
  {
    if from != to {
      hide AfterRename, NoLongCycle;
      RenameKeepsRows(s, from, to);
      RenameInGraph(s, from, to);
      RenameKeepsNoLongCycle(RoleGraph(s), from, to);
    }
  }

  lemma RenamedRows(s: Store, from: Name, to: Name)
    requires from in s.roles && (from == to || to !in s.roles)
    ensures var t := AfterRename(s, from, to);
            && t == s.(roles := t.roles, users := t.users)
            && t.roles.Keys == s.roles.Keys - {from} + {to} && t.users.Keys == s.users.Keys
            && (forall r <- t.roles ::
                  var row := s.roles[Renamed(r, to, from)];
                  t.roles[r] == row.(children := RenameIn(row.children, from, to))
                      && (t.roles[r].children == {} <==> row.children == {}))
            && (forall u <- s.users :: t.users[u] == s.users[u].(roles := RenameIn(s.users[u].roles, from, to)))
  {
    forall xs ensures (from == to ==> RenameIn(xs, from, to) == xs) && (RenameIn(xs, from, to) == {} <==> xs == {}) {
      RenameToItself(xs, from);
      RenameInNothing(xs, from, to);
    }
  }

  // ---- what is accepted, and what is stored ----

  /** The listed functions exist, the listed child roles exist and have no child roles, and no list
      repeats a row; the error is that of the first check that fails. */
  lemma WriteIff(s: Store, name: Name, description: Text, functions: seq<Name>, children: Option<seq<Name>>)
    ensures var r, cs := AfterWrite(s, name, description, functions, children), OptionalNames(children);
            if f :| f in functions && f !in s.functions then
              r.Err? && r.error.NotFound? && r.error.item in functions && r.error.item !in s.functions
            else if c :| c in cs && (c !in s.roles || s.roles[c].children != {}) then
              && r.Err? && r.error.item in cs
              && r.error == (if r.error.item in s.roles then NotProcessable(r.error.item) else NotFound(r.error.item))
              && (r.error.item in s.roles ==> s.roles[r.error.item].children != {})
            else if !Distinct(functions) || !Distinct(cs) then r == Err(Conflict(name))
            else
              r == Ok(s.(roles := s.roles[name := Role(description, Elements(functions),
                     if children.Some? then Elements(children.value)
                     else if name in s.roles then s.roles[name].children else {})]))
  {
    assert forall c :: c in RoleGraph(s) <==> c in s.roles;
  }

  /** When a role is accepted, and what is stored then: nothing but the role. */
  lemma CreateIff(s: Store, submit: RoleSubmit)
    ensures AfterCreate(s, submit).Ok? <==>
              && submit.name !in s.roles && Elements(submit.functions) <= s.functions.Keys
              && Distinct(submit.functions) && Distinct(OptionalNames(submit.roles))
              && forall c <- OptionalNames(submit.roles) :: c in s.roles && s.roles[c].children == {}
    ensures submit.name in s.roles ==> AfterCreate(s, submit) == Err(NotProcessable(submit.name))
    ensures AfterCreate(s, submit).Ok? ==>
              var t := AfterCreate(s, submit).value;
              && t == s.(roles := t.roles) && t.roles.Keys == s.roles.Keys + {submit.name}
              && t.roles[submit.name] == Role(submit.description, Elements(submit.functions),
                                              Elements(OptionalNames(submit.roles)))
              && forall r <- s.roles :: t.roles[r] == s.roles[r]
  {
    hide AfterWrite, Distinct;
    WriteIff(s, submit.name, submit.description, submit.functions, submit.roles);
    assert Elements<Name>([]) == {};
  }

  /** When an update is accepted: like a creation, but a role without child roles may list itself under
      its new name. */
  lemma UpdateIff(s: Store, target: Name, submit: RoleSubmit)
    ensures AfterUpdate(s, target, submit).Ok? <==>
              && target in s.roles && (submit.name == target || submit.name !in s.roles)
              && Elements(submit.functions) <= s.functions.Keys
              && Distinct(submit.functions) && Distinct(OptionalNames(submit.roles))
              && forall c <- OptionalNames(submit.roles) ::
                   if c == submit.name then s.roles[target].children == {}
                   else c in s.roles && c != target && s.roles[c].children == {}
    ensures target !in s.roles ==> AfterUpdate(s, target, submit) == Err(NotFound(target))
    ensures target in s.roles && submit.name != target && submit.name in s.roles ==>
              AfterUpdate(s, target, submit) == Err(NotProcessable(submit.name))
  {
    if target in s.roles && (submit.name == target || submit.name !in s.roles) {
      hide AfterRename, AfterWrite, RenameIn, Distinct;
      RenamedRows(s, target, submit.name);
      WriteIff(AfterRename(s, target, submit.name), submit.name, submit.description, submit.functions, submit.roles);
    }
  }

  /** What an update stores: the role as submitted, a list of child roles that is not submitted as it
      was, and the new name wherever the role is referred to. */
  lemma UpdateStores(s: Store, target: Name, submit: RoleSubmit, t: Store)
    requires AfterUpdate(s, target, submit) == Ok(t)
    ensures t == s.(roles := t.roles, users := t.users)
    ensures t.roles.Keys == s.roles.Keys - {target} + {submit.name} && t.users.Keys == s.users.Keys
    ensures t.roles[submit.name] == Role(submit.description, Elements(submit.functions),
              if submit.roles.Some? then Elements(submit.roles.value)
              else RenameIn(s.roles[target].children, target, submit.name))
    ensures forall r <- t.roles :: r != submit.name ==>
              t.roles[r] == s.roles[r].(children := RenameIn(s.roles[r].children, target, submit.name))
    ensures forall u <- s.users :: t.users[u] == s.users[u].(roles := RenameIn(s.users[u].roles, target, submit.name))
  {
    hide AfterRename, AfterWrite, RenameIn;
    RenamedRows(s, target, submit.name);
    WriteIff(AfterRename(s, target, submit.name), submit.name, submit.description, submit.functions, submit.roles);
  }
}
