/** What the service stores at every start, before its first request. */
module Bootstrap {
  import opened Results
  import opened Entries
  import opened Model
  import opened Graphs
  import opened Invariants

  const APPLICATION: Name := "a3s"
  const APP_FUNCTION: Name := "a3s.securityContracts"
  const UPDATE: Name := "a3s.securityContracts.update"
  const READ: Name := "a3s.securityContracts.read"
  const FUNCTION: Name := "a3s.securityContractMaintenance"
  const ROLE: Name := "a3s-bootstrap"
  const ADMIN: Name := "a3s-bootstrap-admin"

  const ADMIN_PROFILE := Profile("a3s-bootstrap-admin@localhost", "Bootstrap", "Admin", false, None)

  /** The descriptions that go with the rows. */
  datatype Texts = Texts(update: Text, read: Text, fn: Text, role: Text)

  predicate PermissionTaken(s: Store) {
    UPDATE in s.permissions || READ in s.permissions
  }

  function WithPermissions(s: Store, texts: Texts): map<Name, Text> {
    s.permissions[UPDATE := texts.update][READ := texts.read]
  }

  function AfterApplication(s: Store, texts: Texts): Result<Store> {
    if APPLICATION in s.applications then Ok(s)
    else if APP_FUNCTION in s.appFunctions || PermissionTaken(s) then Err(Conflict(APPLICATION))
    else Ok(s.(applications := s.applications + {APPLICATION},
               appFunctions := s.appFunctions[APP_FUNCTION := AppFunction(APPLICATION, "", {UPDATE, READ})],
               permissions := WithPermissions(s, texts)))
  }

  /** The two permissions are made anew at every start: a function that is missing while the
      application is there gets new rows for them. */
  function AfterFunction(s: Store, texts: Texts, tracked: bool): Result<Store> {
    if FUNCTION in s.functions then Ok(s)
    else if !tracked && PermissionTaken(s) then Err(Conflict(FUNCTION))
    else Ok(s.(permissions := WithPermissions(s, texts),
               functions := s.functions[FUNCTION := Function(Some(APPLICATION), texts.fn, {UPDATE, READ})]))
  }

  function AfterRole(s: Store, texts: Texts): Store {
    if ROLE in s.roles then s else s.(roles := s.roles[ROLE := Role(texts.role, {FUNCTION}, {})])
  }

  /** `created` says whether the identity manager accepts the new user. */
  function AfterAdmin(s: Store, created: bool): Store {
    if ADMIN in s.users || !created then s else s.(users := s.users[ADMIN := User(ADMIN_PROFILE, {ROLE})])
  }

  function AfterBootstrap(s: Store, texts: Texts, created: bool): Result<Store> {
    var a :- AfterApplication(s, texts);
    var f :- AfterFunction(a, texts, APPLICATION !in s.applications);
    Ok(AfterAdmin(AfterRole(f, texts), created))
  }

  method BootstrapAdminUser(db: A3SContext, texts: Texts, created: bool) returns (r: Outcome)
    modifies db
    ensures Realises(r, db.State(), AfterBootstrap(old(db.State()), texts, created))
    ensures r.Fail? ==> db.State() == old(db.State())
  {
    hide APPLICATION, APP_FUNCTION, FUNCTION, UPDATE, READ, ROLE, ADMIN, ADMIN_PROFILE;
    var tracked := false;
    if APPLICATION !in db.applications {
      if APP_FUNCTION in db.appFunctions || UPDATE in db.permissions || READ in db.permissions {
        return Fail(Conflict(APPLICATION));
      }
      db.applications := db.applications + {APPLICATION};
      db.appFunctions := db.appFunctions[APP_FUNCTION := AppFunction(APPLICATION, "", {UPDATE, READ})];
      db.permissions := db.permissions[UPDATE := texts.update][READ := texts.read];
      tracked := true;
    }
    assert AfterApplication(old(db.State()), texts) == Ok(db.State());
    ghost var withApplication := db.State();
    if FUNCTION !in db.functions {
      if !tracked && (UPDATE in db.permissions || READ in db.permissions) {
        return Fail(Conflict(FUNCTION));
      }
      db.permissions := db.permissions[UPDATE := texts.update][READ := texts.read];
      db.functions := db.functions[FUNCTION := Function(Some(APPLICATION), texts.fn, {UPDATE, READ})];
    }
    assert AfterFunction(withApplication, texts, tracked) == Ok(db.State());
    if ROLE !in db.roles {
      db.roles := db.roles[ROLE := Role(texts.role, {FUNCTION}, {})];
    }
    if ADMIN !in db.users && created {
      db.users := db.users[ADMIN := User(ADMIN_PROFILE, {ROLE})];
    }
    return Pass;
  }

  // ---- when a start succeeds, and what it stores ----

  /** A start fails only on a name that is taken: of the application function or of a permission, when the
      application is new; of a permission, when only the function is. */
  lemma StartIff(s: Store, texts: Texts, created: bool)
    ensures AfterBootstrap(s, texts, created).Ok? <==>
              if "a3s" !in s.applications then
                "a3s.securityContracts" !in s.appFunctions && "a3s.securityContracts.update" !in s.permissions
                && "a3s.securityContracts.read" !in s.permissions
              else
                "a3s.securityContractMaintenance" in s.functions
                || ("a3s.securityContracts.update" !in s.permissions && "a3s.securityContracts.read" !in s.permissions)
    ensures AfterBootstrap(s, texts, created).Err? ==>
              AfterBootstrap(s, texts, created).error ==
              Conflict(if "a3s" !in s.applications then "a3s" else "a3s.securityContractMaintenance")
  {
    assert APPLICATION == "a3s" && APP_FUNCTION == "a3s.securityContracts" && UPDATE == "a3s.securityContracts.update"
        && READ == "a3s.securityContracts.read" && FUNCTION == "a3s.securityContractMaintenance";
    hide APPLICATION, APP_FUNCTION, FUNCTION, UPDATE, READ, ROLE, ADMIN, ADMIN_PROFILE;
  }

  lemma ApplicationIsThere(s: Store, texts: Texts, a: Store)
    requires AfterApplication(s, texts) == Ok(a)
    ensures a == s.(applications := s.applications + {APPLICATION},
                    appFunctions := if APPLICATION in s.applications then s.appFunctions
                                    else s.appFunctions[APP_FUNCTION := AppFunction(APPLICATION, "", {UPDATE, READ})],
                    permissions := if APPLICATION in s.applications then s.permissions else WithPermissions(s, texts))
  {
    hide UPDATE, READ, APP_FUNCTION, APPLICATION, WithPermissions;
    assert APPLICATION in s.applications ==> s.applications + {APPLICATION} == s.applications;
  }

  lemma FunctionIsThere(a: Store, texts: Texts, tracked: bool, f: Store)
    requires AfterFunction(a, texts, tracked) == Ok(f)
    ensures f == a.(permissions := if FUNCTION in a.functions then a.permissions else WithPermissions(a, texts),
                    functions := if FUNCTION in a.functions then a.functions
                                 else a.functions[FUNCTION := Function(Some(APPLICATION), texts.fn, {UPDATE, READ})])
  {
    hide UPDATE, READ, APPLICATION, FUNCTION, WithPermissions;
  }

  lemma RoleIsThere(f: Store, texts: Texts)
    ensures var r := AfterRole(f, texts);
            && ROLE in r.roles && r == f.(roles := r.roles)
            && r.roles == if ROLE in f.roles then f.roles else f.roles[ROLE := Role(texts.role, {FUNCTION}, {})]
  {
    hide ROLE, FUNCTION;
  }

  lemma AdminIsThere(r: Store, created: bool)
    ensures var t := AfterAdmin(r, created);
            t == r.(users := if ADMIN in r.users || !created then r.users
                             else r.users[ADMIN := User(ADMIN_PROFILE, {ROLE})])
  {
    hide ROLE, ADMIN, ADMIN_PROFILE;
  }

  lemma PermissionsMade(s: Store, a: Store, texts: Texts)
    ensures WithPermissions(s, texts) == s.permissions[UPDATE := texts.update][READ := texts.read]
    ensures a.permissions == WithPermissions(s, texts) ==> WithPermissions(a, texts) == WithPermissions(s, texts)
  {
    hide UPDATE, READ;
  }

  lemma ApplicationRowsMade(s: Store, texts: Texts, a: Store, f: Store)
    requires AfterApplication(s, texts) == Ok(a) && AfterFunction(a, texts, APPLICATION !in s.applications) == Ok(f)
    ensures f == s.(applications := s.applications + {APPLICATION}, appFunctions := a.appFunctions,
                    permissions := if APPLICATION in s.applications && FUNCTION in s.functions then s.permissions
                                   else s.permissions[UPDATE := texts.update][READ := texts.read],
                    functions := if FUNCTION in s.functions then s.functions
                                 else s.functions[FUNCTION := Function(Some(APPLICATION), texts.fn, {UPDATE, READ})])
    ensures a.appFunctions == if APPLICATION in s.applications then s.appFunctions
                              else s.appFunctions[APP_FUNCTION := AppFunction(APPLICATION, "", {UPDATE, READ})]
  {
    hide AfterApplication, AfterFunction, APPLICATION, APP_FUNCTION, FUNCTION, UPDATE, READ;
    ApplicationIsThere(s, texts, a);
    FunctionIsThere(a, texts, APPLICATION !in s.applications, f);
    PermissionsMade(s, a, texts);
    hide WithPermissions;
  }

  lemma PeopleMade(f: Store, texts: Texts, created: bool, t: Store)
    requires t == AfterAdmin(AfterRole(f, texts), created)
    ensures t == f.(roles := if ROLE in f.roles then f.roles else f.roles[ROLE := Role(texts.role, {FUNCTION}, {})],
                    users := if ADMIN in f.users || !created then f.users
                             else f.users[ADMIN := User(ADMIN_PROFILE, {ROLE})])
  {
    hide AfterRole, AfterAdmin, ROLE, ADMIN, ADMIN_PROFILE, FUNCTION;
    RoleIsThere(f, texts);
    AdminIsThere(AfterRole(f, texts), created);
  }

  /** Each row is made when it is missing, and everything else stays. */
  lemma StartStores(s: Store, texts: Texts, created: bool, t: Store)
    requires AfterBootstrap(s, texts, created) == Ok(t)
    ensures t == s.(applications := t.applications, appFunctions := t.appFunctions, permissions := t.permissions,
                    functions := t.functions, roles := t.roles, users := t.users)
    ensures t.applications == s.applications + {APPLICATION}
    ensures t.appFunctions == if APPLICATION in s.applications then s.appFunctions
                              else s.appFunctions[APP_FUNCTION := AppFunction(APPLICATION, "", {UPDATE, READ})]
    ensures t.permissions == if APPLICATION in s.applications && FUNCTION in s.functions then s.permissions
                             else s.permissions[UPDATE := texts.update][READ := texts.read]
    ensures t.functions == if FUNCTION in s.functions then s.functions
                           else s.functions[FUNCTION := Function(Some(APPLICATION), texts.fn, {UPDATE, READ})]
    ensures t.roles == if ROLE in s.roles then s.roles else s.roles[ROLE := Role(texts.role, {FUNCTION}, {})]
    ensures t.users == if ADMIN in s.users || !created then s.users
                       else s.users[ADMIN := User(ADMIN_PROFILE, {ROLE})]
  {
    hide AfterApplication, AfterFunction, AfterRole, AfterAdmin, APPLICATION, APP_FUNCTION, FUNCTION, UPDATE, READ;
    hide ROLE, ADMIN, ADMIN_PROFILE;
    var a := AfterApplication(s, texts).value;
    var f := AfterFunction(a, texts, APPLICATION !in s.applications).value;
    ApplicationRowsMade(s, texts, a, f);
    PeopleMade(f, texts, created, t);
  }

  // ---- what a start keeps ----

  /** The permissions that a start makes are held by an application function: the start makes the
      application as well, or makes none because the function is there, or fails because they are. */
  predicate SafeStart(s: Store) {
    APPLICATION !in s.applications || FUNCTION in s.functions || PermissionTaken(s)
  }

  lemma RowsAfterApplication(s: Store, texts: Texts, a: Store)
    requires WellFormed(s) && AfterApplication(s, texts) == Ok(a)
    ensures WellFormed(a) && APPLICATION in a.applications
    ensures PermissionsHeld(s) ==> PermissionsHeld(a)
    ensures FunctionsCovered(s) ==> FunctionsCovered(a)
    ensures Unshared(s) ==> Unshared(a)
    ensures APPLICATION !in s.applications ==> {UPDATE, READ} <= HeldBy(a.appFunctions, APPLICATION)
    ensures a == s.(applications := a.applications, appFunctions := a.appFunctions, permissions := a.permissions)
  {
    hide APPLICATION, APP_FUNCTION, UPDATE, READ;
    if APPLICATION !in s.applications {
      HoldersStay(s.appFunctions, APP_FUNCTION, AppFunction(APPLICATION, "", {UPDATE, READ}));
    }
  }

  lemma HoldersStay(m: map<Name, AppFunction>, name: Name, row: AppFunction)
    requires name !in m
    ensures Held(m[name := row]) == Held(m) + row.permissions
    ensures HeldBy(m[name := row], row.application) == HeldBy(m, row.application) + row.permissions
    ensures forall app :: HeldBy(m, app) <= HeldBy(m[name := row], app)
  {
    var n := m[name := row];
    forall f | f in m ensures f in n && n[f] == m[f] {
    }
    assert n[name] == row;
  }

  lemma RowsAfterFunction(a: Store, texts: Texts, tracked: bool, f: Store)
    requires WellFormed(a) && APPLICATION in a.applications && AfterFunction(a, texts, tracked) == Ok(f)
    requires tracked ==> {UPDATE, READ} <= HeldBy(a.appFunctions, APPLICATION)
    ensures WellFormed(f) && FUNCTION in f.functions
    ensures PermissionsHeld(a) ==> (PermissionsHeld(f) <==> tracked || FUNCTION in a.functions)
    ensures FunctionsCovered(a) ==> (FunctionsCovered(f) <==> tracked || FUNCTION in a.functions)
    ensures f == a.(permissions := f.permissions, functions := f.functions)
  {
    hide APPLICATION, UPDATE, READ, FUNCTION;
    if FUNCTION !in a.functions && !tracked {
      assert UPDATE in f.permissions && UPDATE in f.functions[FUNCTION].permissions;
      assert UPDATE !in Held(a.appFunctions) && UPDATE !in HeldBy(a.appFunctions, APPLICATION);
    }
  }

  lemma NewLeafRole(f: Store, name: Name, role: Role, r: Store)
    requires WellFormed(f) && name !in f.roles && role.functions <= f.functions.Keys && role.children == {}
    requires r == f.(roles := f.roles[name := role])
    ensures WellFormed(r) && RoleGraph(r) == RoleGraph(f)[name := {}]
  {
  }

  lemma RowsAfterRole(f: Store, texts: Texts, r: Store)
    requires WellFormed(f) && FUNCTION in f.functions && r == AfterRole(f, texts)
    ensures WellFormed(r) && ROLE in r.roles && r == f.(roles := r.roles)
    ensures RoleGraph(r) == if ROLE in f.roles then RoleGraph(f) else RoleGraph(f)[ROLE := {}]
  {
    hide ROLE, FUNCTION, WellFormed;
    if ROLE !in f.roles {
      NewLeafRole(f, ROLE, Role(texts.role, {FUNCTION}, {}), r);
    }
  }

  lemma RowsAfterAdmin(r: Store, created: bool, t: Store)
    requires WellFormed(r) && ROLE in r.roles && t == AfterAdmin(r, created)
    ensures WellFormed(t) && t == r.(users := t.users)
  {
    hide ROLE, ADMIN, ADMIN_PROFILE;
  }

  lemma RowsAfterPeople(f: Store, texts: Texts, created: bool, t: Store)
    requires WellFormed(f) && FUNCTION in f.functions && t == AfterAdmin(AfterRole(f, texts), created)
    ensures WellFormed(t) && t == f.(roles := t.roles, users := t.users)
    ensures TeamGraph(t) == TeamGraph(f)
    ensures RoleGraph(t) == if ROLE in f.roles then RoleGraph(f) else RoleGraph(f)[ROLE := {}]
  {
    hide WellFormed, AfterRole, AfterAdmin, ROLE, FUNCTION;
    RowsAfterRole(f, texts, AfterRole(f, texts));
    RowsAfterAdmin(AfterRole(f, texts), created, t);
  }

  lemma RowsAfterBootstrap(s: Store, texts: Texts, created: bool, t: Store)
    requires WellFormed(s) && AfterBootstrap(s, texts, created) == Ok(t)
    ensures WellFormed(t) && TeamGraph(t) == TeamGraph(s) && t.teams == s.teams
    ensures RoleGraph(t) == if ROLE in s.roles then RoleGraph(s) else RoleGraph(s)[ROLE := {}]
    ensures PermissionsHeld(s) ==> (PermissionsHeld(t) <==> SafeStart(s))
    ensures FunctionsCovered(s) ==> (FunctionsCovered(t) <==> SafeStart(s))
    ensures Unshared(s) ==> Unshared(t)
  {
    hide WellFormed, AfterApplication, AfterFunction, AfterRole, AfterAdmin, APPLICATION, FUNCTION, UPDATE, READ, ROLE;
    hide PermissionsHeld, FunctionsCovered, Unshared, SafeStart, RoleGraph, TeamGraph;
    var tracked := APPLICATION !in s.applications;
    var a := AfterApplication(s, texts).value;
    RowsAfterApplication(s, texts, a);
    var f := AfterFunction(a, texts, tracked).value;
    StartIsSafe(s, texts, a, tracked, f);
    RowsAfterFunction(a, texts, tracked, f);
    RowsAfterPeople(f, texts, created, t);
    SameTables(a, f, t);
    SameGraphs(s, f);
  }

  lemma SameGraphs(s: Store, f: Store)
    requires f.roles == s.roles && f.teams == s.teams
    ensures RoleGraph(f) == RoleGraph(s) && TeamGraph(f) == TeamGraph(s)
  {
  }

  lemma SameTables(a: Store, f: Store, t: Store)
    requires f == a.(permissions := f.permissions, functions := f.functions)
    requires t == f.(roles := t.roles, users := t.users)
    ensures PermissionsHeld(t) <==> PermissionsHeld(f)
    ensures FunctionsCovered(t) <==> FunctionsCovered(f)
    ensures Unshared(t) <==> Unshared(a)
  {
  }

  lemma StartIsSafe(s: Store, texts: Texts, a: Store, tracked: bool, f: Store)
    requires AfterApplication(s, texts) == Ok(a) && tracked == (APPLICATION !in s.applications)
    requires AfterFunction(a, texts, tracked) == Ok(f)
    ensures SafeStart(s) <==> tracked || FUNCTION in a.functions
  {
    hide APPLICATION, APP_FUNCTION, UPDATE, READ, FUNCTION;
  }

  lemma RefusedIsSafe(s: Store, texts: Texts, created: bool)
    requires AfterBootstrap(s, texts, created).Err?
    ensures SafeStart(s)
  {
    hide APPLICATION, APP_FUNCTION, UPDATE, READ, FUNCTION, ROLE, ADMIN;
  }

  /** Nothing is asked of the store: a start adds rows and changes none. */
  lemma BootstrapFrame(s: Store, texts: Texts, created: bool, t: Store)
    requires AfterBootstrap(s, texts, created) == Ok(t)
    ensures t == s.(applications := t.applications, appFunctions := t.appFunctions, permissions := t.permissions,
                    functions := t.functions, roles := t.roles, users := t.users)
    ensures t.roles == s.roles || (ROLE !in s.roles && t.roles == s.roles[ROLE := Role(texts.role, {FUNCTION}, {})])
    ensures t.users == s.users || t.users == s.users[ADMIN := User(ADMIN_PROFILE, {ROLE})]
  {
    hide AfterBootstrap, ROLE, ADMIN, FUNCTION, APPLICATION, APP_FUNCTION, UPDATE, READ, ADMIN_PROFILE;
    StartStores(s, texts, created, t);
  }

  /** A start keeps a sound store sound exactly when it is safe; otherwise the permissions it makes
      belong to no application function. */
  lemma BootstrapKeepsSoundIff(s: Store, texts: Texts, created: bool, t: Store)
    requires Sound(s) && AfterBootstrap(s, texts, created) == Ok(t)
    ensures Sound(t) <==> SafeStart(s)
  {
    hide WellFormed, NoLongCycle, AfterBootstrap, SafeStart, ROLE, PermissionsHeld;
    RowsAfterBootstrap(s, texts, created, t);
    if ROLE !in s.roles {
      AssignmentClosesNoCycle(RoleGraph(s), ROLE, {});
    }
  }

  lemma AllThere(t: Store, texts: Texts, created: bool)
    requires APPLICATION in t.applications && FUNCTION in t.functions && ROLE in t.roles
             && (created ==> ADMIN in t.users)
    ensures AfterBootstrap(t, texts, created) == Ok(t)
  {
  }

  /** The next start finds everything in place. */
  lemma SecondStartChangesNothing(s: Store, texts: Texts, created: bool, t: Store)
    requires AfterBootstrap(s, texts, created) == Ok(t)
    ensures AfterBootstrap(t, texts, created) == Ok(t)
  {
    hide AfterBootstrap, APPLICATION, APP_FUNCTION, FUNCTION, UPDATE, READ, ROLE, ADMIN, ADMIN_PROFILE;
    StartStores(s, texts, created, t);
    AllThere(t, texts, created);
  }
}
