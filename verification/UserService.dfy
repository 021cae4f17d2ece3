/** Creating, updating and deleting users. */
module UserService {
  import opened Results
  import opened Entries
  import opened Strings
  import opened Model
  import opened Graphs
  import opened Invariants
  import opened Assignments

  datatype UserSubmit = UserSubmit(
    username: Text, email: Text, firstName: Text, surname: Text, password: Text, roles: seq<Name>, teams: seq<Name>)

  /** The rows of the user-team table after the memberships of one user are rebuilt. */
  function Memberships(teams: map<Name, Team>, user: Name, joined: set<Name>): map<Name, Team> {
    map t | t in teams ::
      teams[t].(members := if t in joined then teams[t].members + {user} else teams[t].members - {user})
  }

  /** Overwrites the roles and memberships of a user whose other fields are `profile`. */
  function AfterWrite(s: Store, name: Name, profile: Profile, submit: UserSubmit): Result<Store> {
    CheckPresent(s.roles.Keys, submit.roles).Then(
      CheckLeaves(TeamGraph(s), submit.teams).Then(
        CheckKeys(name, submit.roles).Then(
          CheckKeys(name, submit.teams).Then(
            Ok(s.(users := s.users[name := User(profile, Elements(submit.roles))],
                  teams := Memberships(s.teams, name, Elements(submit.teams))))))))
  }

  function AfterCreate(s: Store, submit: UserSubmit): Result<Store> {
    var name := Trim(submit.username);
    if Trim(submit.password) == "" then Err(NotProcessable("password"))
    else if name in s.users then Err(NotProcessable(name))
    else AfterWrite(s, name, Profile(Trim(submit.email), submit.firstName, submit.surname, false, None), submit)
  }

  function AfterRename(s: Store, from: Name, to: Name): Store
    requires from in s.users
  {
    if from == to then s else
      s.(users := map u | u in s.users.Keys - {from} + {to} :: s.users[Renamed(u, to, from)],
         teams := map t | t in s.teams :: s.teams[t].(members := RenameIn(s.teams[t].members, from, to)))
  }

  function AfterUpdate(s: Store, target: Name, submit: UserSubmit): Result<Store> {
    var name := Trim(submit.username);
    if target !in s.users then Err(NotFound(target))
    else if target != name && name in s.users then Err(NotProcessable(name))
    else
      var t := AfterRename(s, target, name);
      var profile := s.users[target].profile.(email := Trim(submit.email), firstName := submit.firstName,
          surname := submit.surname);
      AfterWrite(t, name, profile, submit)
  }

  const DELETED := " - Deleted"

  /** Deleting a user drops its rows and renames it, so that the name can be used again. */
  function AfterDelete(s: Store, target: Name, now: int): Result<Store> {
    if target !in s.users then Err(NotFound(target))
    else if target + DELETED in s.users then Err(Conflict(target + DELETED))
    else
      var profile := s.users[target].profile;
      Ok(s.(users := (s.users - {target})[target + DELETED :=
                       User(profile.(email := profile.email + DELETED, deleted := true, deletedTime := Some(now)), {})],
            teams := Memberships(s.teams, target, {})))
  }

  /** Rebuilds the role and team rows of a user that is not saved yet. */
  method AssignRows(tracked: Store, name: Name, profile: Profile, submit: UserSubmit)
    returns (r: Outcome, user: User, teams: map<Name, Team>)
    ensures Realises(r, tracked.(users := tracked.users[name := user], teams := teams),
            AfterWrite(tracked, name, profile, submit))
  {
    user, teams := User(profile, {}), tracked.teams;
    var roleRows, teamRows: seq<Name>;
    r, roleRows := AssignPresent(tracked.roles.Keys, submit.roles);
    if r.Fail? {
      return;
    }
    user := user.(roles := Elements(roleRows));
    r, teamRows := AssignLeaves(TeamGraph(tracked), submit.teams);
    teams := Memberships(teams, name, Elements(teamRows));
    if r.Pass? && (!Distinct(roleRows) || !Distinct(teamRows)) {
      r := Fail(Conflict(name));
    }
  }

  method Create(db: A3SContext, submit: UserSubmit) returns (r: Outcome)
    modifies db`users, db`teams
    ensures Realises(r, db.State(), AfterCreate(old(db.State()), submit))
    ensures r.Fail? ==> db.State() == old(db.State())
  {
    var name := Trim(submit.username);
    if Trim(submit.password) == "" {
      return Fail(NotProcessable("password"));
    }
    if name in db.users {
      return Fail(NotProcessable(name));
    }
    var tracked := db.State();
    var profile := Profile(Trim(submit.email), submit.firstName, submit.surname, false, None);
    var user: User, teams: map<Name, Team>;
    r, user, teams := AssignRows(tracked, name, profile, submit);
    if r.Pass? {
      db.users, db.teams := tracked.users[name := user], teams;
      assert db.State() == tracked.(users := tracked.users[name := user], teams := teams);
    }
  }

  method Update(db: A3SContext, target: Name, submit: UserSubmit) returns (r: Outcome)
    modifies db`users, db`teams
    ensures Realises(r, db.State(), AfterUpdate(old(db.State()), target, submit))
    ensures r.Fail? ==> db.State() == old(db.State())
  {
    var name := Trim(submit.username);
    if target !in db.users {
      return Fail(NotFound(target));
    }
    if target != name && name in db.users {
      return Fail(NotProcessable(name));
    }
    var tracked := AfterRename(db.State(), target, name);
    var profile := db.users[target].profile.(email := Trim(submit.email), firstName := submit.firstName,
        surname := submit.surname);
    var user: User, teams: map<Name, Team>;
    r, user, teams := AssignRows(tracked, name, profile, submit);
    if r.Pass? {
      db.users, db.teams := tracked.users[name := user], teams;
      assert db.State() == tracked.(users := tracked.users[name := user], teams := teams);
    }
  }

  method Delete(db: A3SContext, target: Name, now: int) returns (r: Outcome)
    modifies db`users, db`teams
    ensures Realises(r, db.State(), AfterDelete(old(db.State()), target, now))
    ensures r.Fail? ==> db.State() == old(db.State())
  {
    if target !in db.users {
      return Fail(NotFound(target));
    }
    var user := db.users[target].(roles := {});
    user := user.(profile := user.profile.(email := user.profile.email + DELETED, deleted := true,
                                           deletedTime := Some(now)));
    var name := target + DELETED;
    if name in db.users {
      return Fail(Conflict(name));
    }
    db.teams := Memberships(db.teams, target, {});
    db.users := (db.users - {target})[name := user];
    r := Pass;
  }

  lemma RenameFrame(s: Store, from: Name, to: Name)
    requires from in s.users
    ensures var t := AfterRename(s, from, to);
            t == s.(users := t.users, teams := t.teams) && TeamGraph(t) == TeamGraph(s)
  {
  }

  lemma WriteFrame(s: Store, name: Name, profile: Profile, submit: UserSubmit, t: Store)
    requires AfterWrite(s, name, profile, submit) == Ok(t)
    ensures t == s.(users := t.users, teams := t.teams) && TeamGraph(t) == TeamGraph(s)
  {
  }

  lemma DeleteFrame(s: Store, target: Name, now: int, t: Store)
    requires AfterDelete(s, target, now) == Ok(t)
    ensures t == s.(users := t.users, teams := t.teams) && TeamGraph(t) == TeamGraph(s)
  {
  }

  lemma WriteKeepsSound(s: Store, name: Name, profile: Profile, submit: UserSubmit)
    requires Sound(s) && AfterWrite(s, name, profile, submit).Ok?
    ensures Sound(AfterWrite(s, name, profile, submit).value)
  {
    var t := AfterWrite(s, name, profile, submit).value;
    assert RoleGraph(t) == RoleGraph(s) && TeamGraph(t) == TeamGraph(s);
  }

  lemma RenameKeepsSound(s: Store, from: Name, to: Name)
    requires Sound(s) && from in s.users && (from == to || to !in s.users)
    ensures Sound(AfterRename(s, from, to))
  {
    var t := AfterRename(s, from, to);
    assert RoleGraph(t) == RoleGraph(s) && TeamGraph(t) == TeamGraph(s);
  }

  lemma DeleteKeepsSound(s: Store, target: Name, now: int)
    requires Sound(s) && AfterDelete(s, target, now).Ok?
    ensures Sound(AfterDelete(s, target, now).value)
  {
    var t := AfterDelete(s, target, now).value;
    assert RoleGraph(t) == RoleGraph(s) && TeamGraph(t) == TeamGraph(s);
  }

  /** Deletion frees the name: no row of the user is left under it. */
  lemma DeletionFreesName(s: Store, target: Name, now: int, t: Store)
    requires AfterDelete(s, target, now) == Ok(t)
    ensures target !in t.users && target + DELETED in t.users && t.users[target + DELETED].roles == {}
    ensures forall x <- t.teams ::
              target !in t.teams[x].members && target + DELETED !in t.teams[x].members - s.teams[x].members
  {
    assert |target| != |target + DELETED|;
  }

  /** A name can be deleted, created and deleted again only once: the second deletion meets the
      first one's renamed row. */
  lemma SecondDeletionConflicts(s: Store, target: Name, now: int, t: Store, submit: UserSubmit, u: Store, later: int)
    requires AfterDelete(s, target, now) == Ok(t)
    requires AfterCreate(t, submit) == Ok(u) && Trim(submit.username) == target
    ensures AfterDelete(u, target, later) == Err(Conflict(target + DELETED))
  {
    DeletionFreesName(s, target, now, t);
  }

  // ---- what is accepted, and what is stored ----

  /** The submitted roles exist, the submitted teams exist and have no child teams, and no list repeats
      a row; the error is that of the first check that fails. */
  lemma WriteIff(s: Store, name: Name, profile: Profile, submit: UserSubmit)
    ensures var r := AfterWrite(s, name, profile, submit);
            if x :| x in submit.roles && x !in s.roles then
              r.Err? && r.error.NotFound? && r.error.item in submit.roles && r.error.item !in s.roles
            else if x :| x in submit.teams && (x !in s.teams || s.teams[x].children != {}) then
              && r.Err? && r.error.item in submit.teams
              && r.error == (if r.error.item in s.teams then NotProcessable(r.error.item) else NotFound(r.error.item))
              && (r.error.item in s.teams ==> s.teams[r.error.item].children != {})
            else if !Distinct(submit.roles) || !Distinct(submit.teams) then r == Err(Conflict(name))
            else
              && r.Ok? && r.value == s.(users := r.value.users, teams := r.value.teams)
              && r.value.users == s.users[name := User(profile, Elements(submit.roles))]
              && r.value.teams.Keys == s.teams.Keys
              && forall x <- s.teams ::
                   r.value.teams[x] == s.teams[x].(members :=
                     if x in submit.teams then s.teams[x].members + {name} else s.teams[x].members - {name})
  {
    assert forall c :: c in TeamGraph(s) <==> c in s.teams;
  }

  lemma WriteStores(s: Store, name: Name, profile: Profile, submit: UserSubmit, t: Store)
    requires AfterWrite(s, name, profile, submit) == Ok(t)
    ensures t == s.(users := t.users, teams := t.teams)
    ensures t.users == s.users[name := User(profile, Elements(submit.roles))] && t.teams.Keys == s.teams.Keys
    ensures forall x <- s.teams ::
              t.teams[x] == s.teams[x].(members :=
                if x in submit.teams then s.teams[x].members + {name} else s.teams[x].members - {name})
  {
    hide AfterWrite, Distinct;
    WriteIff(s, name, profile, submit);
  }

  lemma WriteAcceptedIff(s: Store, name: Name, profile: Profile, submit: UserSubmit)
    ensures AfterWrite(s, name, profile, submit).Ok? <==>
              && Elements(submit.roles) <= s.roles.Keys && Distinct(submit.roles) && Distinct(submit.teams)
              && forall x <- submit.teams :: x in s.teams && s.teams[x].children == {}
  {
    hide AfterWrite, Distinct;
    WriteIff(s, name, profile, submit);
  }

  /** When a user is accepted, and what is stored then: the trimmed name and address, the names, the
      submitted roles, and membership of exactly the submitted teams. */
  lemma CreateIff(s: Store, submit: UserSubmit)
    ensures AfterCreate(s, submit).Ok? <==>
              && Trim(submit.password) != "" && Trim(submit.username) !in s.users
              && Elements(submit.roles) <= s.roles.Keys && Distinct(submit.roles) && Distinct(submit.teams)
              && forall x <- submit.teams :: x in s.teams && s.teams[x].children == {}
    ensures Trim(submit.password) == "" ==> AfterCreate(s, submit) == Err(NotProcessable("password"))
    ensures Trim(submit.password) != "" && Trim(submit.username) in s.users ==>
              AfterCreate(s, submit) == Err(NotProcessable(Trim(submit.username)))
    ensures AfterCreate(s, submit).Ok? ==>
              var name, t := Trim(submit.username), AfterCreate(s, submit).value;
              && t == s.(users := t.users, teams := t.teams)
              && t.users.Keys == s.users.Keys + {name} && t.teams.Keys == s.teams.Keys
              && (forall u <- s.users :: t.users[u] == s.users[u])
              && t.users[name] == User(Profile(Trim(submit.email), submit.firstName, submit.surname, false, None),
                                       Elements(submit.roles))
              && forall x <- s.teams ::
                   && t.teams[x] == s.teams[x].(members := t.teams[x].members)
                   && (name in t.teams[x].members <==> x in submit.teams)
                   && forall u :: u != name ==> (u in t.teams[x].members <==> u in s.teams[x].members)
  {
    var name := Trim(submit.username);
    hide AfterWrite, Trim, Distinct;
    WriteIff(s, name, Profile(Trim(submit.email), submit.firstName, submit.surname, false, None), submit);
  }

  lemma RenamedRows(s: Store, from: Name, to: Name)
    requires from in s.users && (from == to || to !in s.users)
    ensures var t := AfterRename(s, from, to);
            && t == s.(users := t.users, teams := t.teams)
            && t.users.Keys == s.users.Keys - {from} + {to} && t.teams.Keys == s.teams.Keys
            && (forall u <- t.users :: u != to ==> t.users[u] == s.users[u])
            && (forall x <- s.teams :: t.teams[x] == s.teams[x].(members := RenameIn(s.teams[x].members, from, to)))
  {
    forall xs ensures from == to ==> RenameIn(xs, from, to) == xs {
      RenameToItself(xs, from);
    }
  }

  lemma UpdateIff(s: Store, target: Name, submit: UserSubmit)
    ensures AfterUpdate(s, target, submit).Ok? <==>
              && target in s.users && (Trim(submit.username) == target || Trim(submit.username) !in s.users)
              && Elements(submit.roles) <= s.roles.Keys && Distinct(submit.roles) && Distinct(submit.teams)
              && forall x <- submit.teams :: x in s.teams && s.teams[x].children == {}
    ensures target !in s.users ==> AfterUpdate(s, target, submit) == Err(NotFound(target))
    ensures target in s.users && Trim(submit.username) != target && Trim(submit.username) in s.users ==>
              AfterUpdate(s, target, submit) == Err(NotProcessable(Trim(submit.username)))
  {
    var name := Trim(submit.username);
    if target in s.users && (name == target || name !in s.users) {
      hide AfterRename, AfterWrite, RenameIn, Trim, Distinct;
      var b := AfterRename(s, target, name);
      RenamedRows(s, target, name);
      assert forall x <- s.teams :: b.teams[x].children == s.teams[x].children;
      WriteAcceptedIff(b, name, s.users[target].profile.(email := Trim(submit.email),
          firstName := submit.firstName, surname := submit.surname), submit);
    }
  }

  /** What an update stores: the submitted fields and the rest of the profile as it was, the submitted
      roles, membership of exactly the submitted teams under the new name and of none under the old one,
      and everybody else as before. */
  lemma UpdateStores(s: Store, target: Name, submit: UserSubmit, t: Store)
    requires AfterUpdate(s, target, submit) == Ok(t)
    ensures var name, profile := Trim(submit.username), s.users[target].profile;
            && t == s.(users := t.users, teams := t.teams)
            && t.users.Keys == s.users.Keys - {target} + {name} && t.teams.Keys == s.teams.Keys
            && t.users[name] == User(Profile(Trim(submit.email), submit.firstName, submit.surname,
                                             profile.deleted, profile.deletedTime), Elements(submit.roles))
            && (forall u <- t.users :: u != name ==> t.users[u] == s.users[u])
            && forall x <- s.teams ::
                 && t.teams[x] == s.teams[x].(members := t.teams[x].members)
                 && (name in t.teams[x].members <==> x in submit.teams)
                 && (name != target ==> target !in t.teams[x].members)
                 && forall u :: u != name && u != target ==> (u in t.teams[x].members <==> u in s.teams[x].members)
  {
    var name := Trim(submit.username);
    hide AfterRename, AfterWrite, RenameIn, Trim, Distinct;
    RenamedRows(s, target, name);
    forall x, u | x in s.teams
      ensures name != target ==> target !in RenameIn(s.teams[x].members, target, name)
      ensures u != name && u != target ==>
                (u in RenameIn(s.teams[x].members, target, name) <==> u in s.teams[x].members)
    {
      RenameInIff(s.teams[x].members, target, name, u);
      RenameInIff(s.teams[x].members, target, name, target);
    }
    WriteStores(AfterRename(s, target, name), name, s.users[target].profile.(email := Trim(submit.email),
        firstName := submit.firstName, surname := submit.surname), submit, t);
  }

  /** What a deletion leaves: the row under the marked name, marked itself, with no roles and no
      memberships, and everybody else as before. */
  lemma DeleteIff(s: Store, target: Name, now: int)
    ensures AfterDelete(s, target, now).Ok? <==> target in s.users && target + " - Deleted" !in s.users
    ensures target !in s.users ==> AfterDelete(s, target, now) == Err(NotFound(target))
    ensures target in s.users && target + " - Deleted" in s.users ==>
              AfterDelete(s, target, now) == Err(Conflict(target + " - Deleted"))
    ensures AfterDelete(s, target, now).Ok? ==>
              var gone, t, profile := target + " - Deleted", AfterDelete(s, target, now).value, s.users[target].profile;
              && t == s.(users := t.users, teams := t.teams)
              && t.users.Keys == s.users.Keys - {target} + {gone} && t.teams.Keys == s.teams.Keys
              && t.users[gone] == User(Profile(profile.email + " - Deleted", profile.firstName, profile.surname, true,
                                               Some(now)), {})
              && (forall u <- t.users :: u != gone ==> t.users[u] == s.users[u])
              && forall x <- s.teams ::
                   t.teams[x] == s.teams[x].(members := s.teams[x].members - {target})
  {
    assert |target| != |target + DELETED|;
  }
}
