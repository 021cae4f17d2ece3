/** Applying an exported contract to the store it was read from. */
module ContractReapply {
  import opened Results
  import opened Entries
  import opened Strings
  import opened Model
  import opened Graphs
  import opened Invariants
  import opened SecurityContractApplication
  import opened SecurityContractDefaultConfiguration
  import opened ApplicationConvergence
  import opened SecurityContract
  import opened RolesSection
  import opened UsersSection
  import opened TeamsSection
  import opened ApplicationsSection
  import opened ContractExport

  /** Data policies are exported, because their application has an application function. */
  predicate PoliciesExported(s: Store) {
    forall p <- s.dataPolicies :: FunctionsOf(s, s.dataPolicies[p].application) != {}
  }

  predicate FunctionsLive(s: Store) {
    forall f <- s.functions :: s.functions[f].application.Some? ==> s.functions[f].permissions != {}
  }

  /** No permission of an application's business function is held by two of the application's functions. */
  predicate UsedOnce(s: Store) {
    forall f <- s.functions, p <- s.functions[f].permissions ::
      s.functions[f].application.Some? ==> !HeldTwice(s.appFunctions, s.functions[f].application.value, p)
  }

  predicate NoOwnChildren(s: Store) {
    && (forall r <- s.roles :: r !in s.roles[r].children)
    && (forall t <- s.teams :: t !in s.teams[t].children)
  }

  predicate UsersTrimmed(s: Store) {
    forall u <- LiveUsers(s) :: Trim(u) == u && Trim(s.users[u].profile.email) == s.users[u].profile.email
  }

  predicate Reappliable(s: Store) {
    && PoliciesExported(s)
    && FunctionsLive(s) && FunctionsCovered(s) && UsedOnce(s)
    && OneLevel(RoleGraph(s)) && OneLevel(TeamGraph(s))
  }

  lemma ExportMatches(s: Store, d: ApplicationDecl)
    requires WellFormed(s) && d.name in s.applications && ListsApplication(s, d)
    requires forall p <- s.dataPolicies :: s.dataPolicies[p].application == d.name ==> FunctionsOf(s, d.name) != {}
    ensures Distinctly(d) && Matches(s, d)
  {
    var fs, ps := d.body.functions, d.body.policies;
    forall i | 0 <= i < |fs|
      ensures fs[i].name in s.appFunctions
      ensures s.appFunctions[fs[i].name] == AppFunction(d.name, fs[i].body.description, Names(fs[i].body.permissions))
    {
      assert fs[i] in fs && fs[i].name in FunctionsOf(s, d.name);
    }
    forall i | 0 <= i < |ps|
      ensures ps[i].name in s.dataPolicies && s.dataPolicies[ps[i].name] == DataPolicy(d.name, ps[i].body)
    {
      assert ps[i] in ps && ps[i].name in PoliciesOf(s, d.name);
    }
    if fs == [] {
      assert FunctionsOf(s, d.name) == {};
    }
  }

  lemma AllLiveIsLive(fs: FunctionList)
    requires AllLive(fs)
    ensures Live(fs) == fs
  {
  }

  lemma ExportedObtainable(s: Store, app: Name, fs: FunctionList, f: Entry<FunctionBody>)
    requires FunctionsCovered(s) && FunctionsLive(s) && UsedOnce(s) && ListsFunctions(s, app, fs) && f in fs
    ensures f.body.permissions != [] && Obtainable(s, app, f)
  {
    assert f.name in Names(fs) && f.name in BusinessFunctionsOf(s, app);
    forall p <- f.body.permissions ensures !HeldTwice(s.appFunctions, app, p) {
      assert p in Elements(f.body.permissions) && p in s.functions[f.name].permissions;
    }
  }

  lemma ExportedFunctionsHold(s: Store, app: Name, fs: FunctionList)
    requires FunctionsCovered(s) && FunctionsLive(s) && UsedOnce(s) && ListsFunctions(s, app, fs)
    ensures ApplicationHolds(s, app, fs) && NothingMoves(s, app, fs)
  {
    forall f <- fs
      ensures f.name in BusinessFunctionsOf(s, app) && f.body.permissions != [] && Obtainable(s, app, f)
    {
      assert f.name in Names(fs);
      ExportedObtainable(s, app, fs, f);
    }
    AllLiveIsLive(fs);
    if fs != [] {
      assert fs[0].body.permissions[0] in Elements(fs[0].body.permissions);
      assert fs[0].body.permissions[0] in HeldBy(s.appFunctions, app);
      assert HasAppFunctions(s, app);
    }
    hide Obtainable;
  }

  lemma ExportIsSeparate(s: Store, d: DefaultConfiguration)
    requires ListsDefaults(s, d)
    ensures Separate(d.applications)
  {
    forall i, j | 0 <= i < j < |d.applications| ensures Names(d.applications[i].body) !! Names(d.applications[j].body) {
      assert d.applications[i] in d.applications && d.applications[j] in d.applications;
    }
  }

  lemma ExportedRolesHold(s: Store, d: DefaultConfiguration)
    requires WellFormed(s) && ListsDefaults(s, d) && OneLevel(RoleGraph(s))
    ensures forall r <- d.roles :: RoleHolds(s, r)
  {
    forall r <- d.roles ensures RoleHolds(s, r) {
      assert RoleRow(r) == s.roles[r.name];
      forall c <- r.body.roles ensures c in s.roles && s.roles[c].children == {} {
        assert c in RoleGraph(s)[r.name] && c in RoleGraph(s) && RoleGraph(s)[c] == {};
      }
    }
  }

  lemma ExportedUsersHold(s: Store, d: DefaultConfiguration)
    requires WellFormed(s) && ListsDefaults(s, d) && UsersTrimmed(s)
    ensures Trimmed(d.users) && forall u <- d.users :: UserHolds(s, u)
  {
    forall u <- d.users ensures Trim(u.name) == u.name && UserHolds(s, u) {
      assert u.name in Names(d.users);
    }
  }

  lemma ExportedTeamsHold(s: Store, d: DefaultConfiguration)
    requires WellFormed(s) && TeamsDisjoint(s) && ListsDefaults(s, d) && OneLevel(TeamGraph(s))
    ensures forall t <- d.teams :: TeamHolds(s, t)
  {
    forall t <- d.teams ensures TeamHolds(s, t) {
      assert TeamRow(t) == s.teams[t.name];
      forall c <- t.body.teams ensures c in s.teams && s.teams[c].children == {} {
        assert c in TeamGraph(s)[t.name] && c in TeamGraph(s) && TeamGraph(s)[c] == {};
      }
      assert t.body.users != [] ==> t.body.users[0] in TeamRow(t).members;
      assert t.body.teams != [] ==> t.body.teams[0] in TeamRow(t).children;
    }
  }

  // ---- nothing changes ----

  lemma ExportedApplicationsFixed(s: Store, ds: seq<ApplicationDecl>)
    requires WellFormed(s) && PermissionsHeld(s) && PoliciesExported(s) && ListsApplications(s, ds)
    ensures AfterResourceServers(s, ds) == Ok(s)
  {
    forall d <- ds ensures Matches(s, d) {
      ExportMatches(s, d);
    }
    ResourceServersFixed(s, ds);
  }

  lemma ExportedFunctionsFixed(s: Store, d: DefaultConfiguration)
    requires FunctionsCovered(s) && FunctionsLive(s) && UsedOnce(s) && ListsDefaults(s, d)
    ensures AfterApplications(s, d.applications) == Ok(s)
  {
    hide ApplicationHolds, NothingMoves;
    forall a <- d.applications
      ensures DistinctNames(a.body) && ApplicationHolds(s, a.name, a.body) && NothingMoves(s, a.name, a.body)
    {
      ExportedFunctionsHold(s, a.name, a.body);
    }
    ApplicationsFixed(s, d.applications);
  }

  lemma ExportedRolesFixed(s: Store, d: DefaultConfiguration)
    requires WellFormed(s) && ListsDefaults(s, d) && OneLevel(RoleGraph(s))
    ensures AfterRoles(s, d.roles) == Ok(s)
  {
    ExportedRolesHold(s, d);
    RolesFixed(s, d.roles);
  }

  lemma ExportedUsersFixed(s: Store, d: DefaultConfiguration)
    requires WellFormed(s) && ListsDefaults(s, d) && UsersTrimmed(s)
    ensures AfterUsers(s, d.users) == Ok(s)
  {
    ExportedUsersHold(s, d);
    UsersFixed(s, d.users);
  }

  lemma ExportedTeamsFixed(s: Store, d: DefaultConfiguration)
    requires WellFormed(s) && TeamsDisjoint(s) && ListsDefaults(s, d) && OneLevel(TeamGraph(s))
    ensures AfterTeams(s, d.teams) == Ok(s)
  {
    ExportedTeamsHold(s, d);
    TeamsFixed(s, d.teams);
  }

  lemma ExportedDefaultsFixed(s: Store, d: DefaultConfiguration)
    requires Sound(s) && UsersTrimmed(s) && ListsDefaults(s, d) && Reappliable(s)
    ensures AfterDefaults(s, d) == Ok(s)
  {
    ExportedFunctionsFixed(s, d);
    ExportedRolesFixed(s, d);
    ExportedUsersFixed(s, d);
    ExportedTeamsFixed(s, d);
  }

  lemma ReappliedIsFixed(s: Store, c: Contract)
    requires Sound(s) && UsersTrimmed(s) && IsExport(s, c) && Reappliable(s)
    ensures AfterContract(s, c) == Ok(s)
  {
    ExportedApplicationsFixed(s, c.applications);
    ExportedDefaultsFixed(s, c.defaults[0]);
    SingleSection(s, c.defaults);
  }

  // ---- and every condition is needed ----

  lemma PoliciesAreNeeded(s: Store, ds: seq<ApplicationDecl>, u: Store)
    requires WellFormed(s) && ListsApplications(s, ds) && u.dataPolicies == s.dataPolicies
    requires forall d <- ds :: Matches(u, d)
    ensures PoliciesExported(s)
  {
    forall p <- s.dataPolicies ensures FunctionsOf(s, s.dataPolicies[p].application) != {} {
      var app := s.dataPolicies[p].application;
      assert app in Names(ds);
      var d :| d in ds && d.name == app;
      assert Matches(u, d) && p in Names(d.body.policies);
      assert d.body.functions != [];
      assert d.body.functions[0].name in Names(d.body.functions);
    }
  }

  lemma FunctionIsSettled(s: Store, d: DefaultConfiguration, a: Store, f: Name)
    requires WellFormed(s) && ListsDefaults(s, d)
    requires a.functions == s.functions && a.applications == s.applications && a.appFunctions == s.appFunctions
    requires forall e <- d.applications :: ApplicationHolds(a, e.name, e.body)
    requires f in s.functions && s.functions[f].application.Some?
    ensures s.functions[f].permissions != {}
    ensures forall p <- s.functions[f].permissions ::
              var app := s.functions[f].application.value;
              p in HeldBy(s.appFunctions, app) && !HeldTwice(s.appFunctions, app, p)
  {
    hide HeldBy, HeldTwice, Live;
    var app := s.functions[f].application.value;
    assert app in Names(d.applications);
    var e :| e in d.applications && e.name == app;
    assert ListsFunctions(s, app, e.body) && f in BusinessFunctionsOf(s, app) && f in Names(e.body);
    assert ApplicationHolds(a, app, e.body) && e.body != [];
    LiveIsPrefix(e.body);
    var g :| g in Live(e.body) && g.name == f;
    assert g.body.permissions[0] in Elements(g.body.permissions);
    assert Obtainable(a, app, g);
    forall p <- s.functions[f].permissions ensures p in g.body.permissions {
      assert p in Elements(g.body.permissions);
    }
  }

  lemma LivenessIsNeeded(s: Store, d: DefaultConfiguration, a: Store)
    requires WellFormed(s) && ListsDefaults(s, d)
    requires a.functions == s.functions && a.applications == s.applications && a.appFunctions == s.appFunctions
    requires forall e <- d.applications :: ApplicationHolds(a, e.name, e.body)
    ensures FunctionsLive(s) && FunctionsCovered(s) && UsedOnce(s)
  {
    hide ApplicationHolds, HeldBy, HeldTwice;
    forall f <- s.functions | s.functions[f].application.Some?
      ensures s.functions[f].permissions != {}
      ensures forall p <- s.functions[f].permissions ::
                var app := s.functions[f].application.value;
                p in HeldBy(s.appFunctions, app) && !HeldTwice(s.appFunctions, app, p)
    {
      FunctionIsSettled(s, d, a, f);
    }
  }

  lemma RoleLevelsAreNeeded(s: Store, d: DefaultConfiguration)
    requires ListsDefaults(s, d) && AfterRoles(s, d.roles).Ok?
    ensures OneLevel(RoleGraph(s))
  {
    var g := RoleGraph(s);
    forall a <- g, b <- g[a] | b in g ensures g[b] == {} {
      assert a in Names(d.roles) && b in Names(d.roles);
      var e :| e in d.roles && e.name == a;
      var child :| child in d.roles && child.name == b;
      assert RoleRow(e) == s.roles[a] && RoleRow(child) == s.roles[b];
      if g[b] != {} {
        assert child.body.roles != [] && b in e.body.roles;
        RolesRefused(s, d.roles, child, e);
      }
    }
  }

  lemma TeamLevelsAreNeeded(s: Store, d: DefaultConfiguration)
    requires ListsDefaults(s, d) && AfterTeams(s, d.teams).Ok?
    ensures OneLevel(TeamGraph(s))
  {
    var g := TeamGraph(s);
    forall a <- g, b <- g[a] | b in g ensures g[b] == {} {
      assert a in Names(d.teams) && b in Names(d.teams);
      var e :| e in d.teams && e.name == a;
      var child :| child in d.teams && child.name == b;
      assert TeamRow(e) == s.teams[a] && TeamRow(child) == s.teams[b];
      if g[b] != {} {
        assert child.body.teams != [] && b in e.body.teams;
        TeamsRefused(s, d.teams, child, e);
      }
    }
  }

  lemma FixedMeansReappliable(s: Store, c: Contract)
    requires Sound(s) && UsersTrimmed(s) && IsExport(s, c) && AfterContract(s, c) == Ok(s)
    ensures Reappliable(s)
  {
    hide AfterApplications, AfterRoles, AfterUsers, AfterTeams, OneLevel, Sound;
    hide FunctionsLive, FunctionsCovered, UsedOnce;
    var d, u := c.defaults[0], AfterResourceServers(s, c.applications).value;
    forall e <- c.applications ensures Distinctly(e) {
      assert ListsApplication(s, e);
    }
    ResourceServersApplied(s, c.applications, u);
    ResourceServersKeepSound(s, c.applications, u);
    DefaultListKeeps(u, c.defaults, s);
    PoliciesAreNeeded(s, c.applications, u);
    ExportedApplicationsFixed(s, c.applications);
    assert c.defaults == [d] && c.defaults[1..] == [];
    var a := AfterApplications(s, d.applications).value;
    ApplicationsKeep(s, d.applications, a);
    var r := AfterRoles(a, d.roles).value;
    RolesKeepSound(a, d.roles, r);
    UsersKeepSound(r, d.users, AfterUsers(r, d.users).value);
    TeamsFrame(AfterUsers(r, d.users).value, d.teams, s);
    ExportIsSeparate(s, d);
    ApplicationsApplied(s, d.applications, a);
    LivenessIsNeeded(s, d, a);
    ExportedFunctionsFixed(s, d);
    RoleLevelsAreNeeded(s, d);
    ExportedRolesFixed(s, d);
    ExportedUsersFixed(s, d);
    TeamLevelsAreNeeded(s, d);
  }

  /** Applying an exported contract to the store it was read from changes nothing, exactly when every
      application with data policies has an application function, every business function of an
      application has permissions and each is held by exactly one of the application's functions, and
      the role and team graphs have one level. */
  lemma ReapplyIff(s: Store, c: Contract)
    requires Sound(s) && UsersTrimmed(s) && NoOwnChildren(s) && IsExport(s, c)
    ensures AfterContract(s, c) == Ok(s) <==> Reappliable(s)
  {
    hide Reappliable, IsExport, Sound, AfterContract;
    if Reappliable(s) {
      ReappliedIsFixed(s, c);
    }
    if AfterContract(s, c) == Ok(s) {
      FixedMeansReappliable(s, c);
    }
  }
}
