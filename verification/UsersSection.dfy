/** What the users section of a default configuration achieves. */
module UsersSection {
  import opened Results
  import opened Entries
  import opened Strings
  import opened Model
  import opened Graphs
  import opened Invariants
  import UserService
  import opened SecurityContractDefaultConfiguration

  predicate Trimmed(ds: seq<Entry<UserBody>>) {
    forall d <- ds :: Trim(d.name) == d.name
  }

  predicate RolesExist(s: Store, d: Entry<UserBody>) {
    Elements(d.body.roles) <= s.roles.Keys && Distinct(d.body.roles)
  }

  predicate UserHolds(s: Store, d: Entry<UserBody>) {
    d.name in s.users && s.users[d.name] == UserRow(d) && RolesExist(s, d)
  }

  lemma UserIff(s: Store, d: Entry<UserBody>)
    requires Trim(d.name) == d.name
    ensures AfterUser(s, d).Ok? <==> RolesExist(s, d)
    ensures AfterUser(s, d).Ok? ==> AfterUser(s, d) == Ok(s.(users := s.users[d.name := UserRow(d)]))
  {
  }

  /** Whatever white space is around the name: the row goes under the trimmed name, a stored user of the
      declared name moves there with all memberships, and the first check that fails decides the error. */
  lemma DeclaredUserIff(s: Store, d: Entry<UserBody>)
    ensures var r, name := AfterUser(s, d), Trim(d.name);
            if x :| x in d.body.roles && x !in s.roles then
              r.Err? && r.error.NotFound? && r.error.item in d.body.roles && r.error.item !in s.roles
            else if d.name !in s.users && name in s.users then r == Err(NotProcessable(name))
            else if !Distinct(d.body.roles) || (d.name in s.users && name != d.name && name in s.users) then
              r == Err(Conflict(name))
            else
              && r.Ok? && r.value == s.(users := r.value.users, teams := r.value.teams)
              && r.value.users.Keys == s.users.Keys - {d.name} + {name} && r.value.teams.Keys == s.teams.Keys
              && r.value.users[name] == User(d.body.profile.(email := Trim(d.body.profile.email)),
                                             Elements(d.body.roles))
              && (forall u <- r.value.users :: u != name ==> r.value.users[u] == s.users[u])
              && forall x <- s.teams ::
                   r.value.teams[x] == s.teams[x].(members := if d.name in s.users
                                                              then RenameIn(s.teams[x].members, d.name, name)
                                                              else s.teams[x].members)
  {
    hide Trim, RenameIn;
    if d.name in s.users && (Trim(d.name) == d.name || Trim(d.name) !in s.users) {
      UserService.RenamedRows(s, d.name, Trim(d.name));
      hide UserService.AfterRename;
    }
  }

  lemma UserFixed(s: Store, d: Entry<UserBody>)
    requires UserHolds(s, d) && Trim(d.name) == d.name
    ensures AfterUser(s, d) == Ok(s)
  {
    UserIff(s, d);
    assert s.users[d.name := UserRow(d)] == s.users;
  }

  lemma PutUserKeepsSound(s: Store, name: Name, user: User)
    requires Sound(s) && user.roles <= s.roles.Keys
    ensures Sound(s.(users := s.users[name := user]))
  {
    var t := s.(users := s.users[name := user]);
    assert RoleGraph(t) == RoleGraph(s) && TeamGraph(t) == TeamGraph(s);
  }

  lemma UserKeepsSound(s: Store, d: Entry<UserBody>, t: Store)
    requires Sound(s) && AfterUser(s, d) == Ok(t)
    ensures Sound(t)
    ensures t == s.(users := t.users, teams := t.teams) && t.teams.Keys == s.teams.Keys
  {
    hide Sound;
    var name := Trim(d.name);
    if d.name in s.users {
      UserService.RenameKeepsSound(s, d.name, name);
      PutUserKeepsSound(UserService.AfterRename(s, d.name, name), name, UserRow(d));
    } else {
      PutUserKeepsSound(s, name, UserRow(d));
    }
  }

  lemma {:induction false} UsersKeepSound(s: Store, ds: seq<Entry<UserBody>>, t: Store)
    requires Sound(s) && AfterUsers(s, ds) == Ok(t)
    ensures Sound(t) && t == s.(users := t.users, teams := t.teams) && t.teams.Keys == s.teams.Keys
    decreases |ds|
  {
    if ds != [] {
      hide AfterUser, Sound;
      var u := AfterUser(s, ds[0]).value;
      UserKeepsSound(s, ds[0], u);
      UsersKeepSound(u, ds[1..], t);
    }
  }

  lemma {:induction false} UsersFrame(s: Store, ds: seq<Entry<UserBody>>, t: Store)
    requires AfterUsers(s, ds) == Ok(t) && Trimmed(ds)
    ensures t == s.(users := t.users) && t.users.Keys == s.users.Keys + Names(ds)
    decreases |ds|
  {
    if ds != [] {
      hide AfterUser;
      UserIff(s, ds[0]);
      assert Trimmed(ds[1..]);
      UsersFrame(AfterUser(s, ds[0]).value, ds[1..], t);
      NamesSplit(ds);
    }
  }

  lemma {:induction false} UsersKept(s: Store, d: Entry<UserBody>, ds: seq<Entry<UserBody>>, t: Store)
    requires UserHolds(s, d) && AfterUsers(s, ds) == Ok(t) && Trimmed(ds)
    requires forall e <- ds :: d.name != e.name
    ensures UserHolds(t, d)
    decreases |ds|
  {
    if ds != [] {
      hide AfterUser;
      UserIff(s, ds[0]);
      UsersKept(AfterUser(s, ds[0]).value, d, ds[1..], t);
    }
  }

  lemma {:induction false} UsersApplied(s: Store, ds: seq<Entry<UserBody>>, t: Store)
    requires AfterUsers(s, ds) == Ok(t) && DistinctNames(ds) && Trimmed(ds)
    ensures forall d <- ds :: UserHolds(t, d)
    decreases |ds|
  {
    if ds != [] {
      hide AfterUser;
      var u := AfterUser(s, ds[0]).value;
      UserIff(s, ds[0]);
      UsersKept(u, ds[0], ds[1..], t);
      UsersApplied(u, ds[1..], t);
      assert ds == [ds[0]] + ds[1..];
    }
  }

  lemma {:induction false} UsersFixed(s: Store, ds: seq<Entry<UserBody>>)
    requires Trimmed(ds) && forall d <- ds :: UserHolds(s, d)
    ensures AfterUsers(s, ds) == Ok(s)
    decreases |ds|
  {
    if ds != [] {
      hide AfterUser;
      UserFixed(s, ds[0]);
      UsersFixed(s, ds[1..]);
    }
  }

  /** Declaring a name with white space around it twice fails the second time: the user is looked up
      as declared but stored trimmed. */
  lemma UntrimmedFailsTwice(s: Store, d: Entry<UserBody>)
    requires Trim(d.name) != d.name && d.name !in s.users && AfterUser(s, d).Ok?
    ensures AfterUser(AfterUser(s, d).value, d) == Err(NotProcessable(Trim(d.name)))
  {
  }
}
