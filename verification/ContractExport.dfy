/** Reading a security contract back out of the store. */
module ContractExport {
  import opened Results
  import opened Entries
  import opened Model
  import opened SecurityContractApplication
  import opened SecurityContractDefaultConfiguration
  import opened SecurityContract
  import opened RolesSection

  // Rows come back in the order of their system period, which the model does not carry, so an
  // export is any contract that lists every row once.

  function FunctionsOf(s: Store, app: Name): set<Name> {
    set f | f in s.appFunctions && s.appFunctions[f].application == app
  }

  function PoliciesOf(s: Store, app: Name): set<Name> {
    set p | p in s.dataPolicies && s.dataPolicies[p].application == app
  }

  function BusinessFunctionsOf(s: Store, app: Name): set<Name> {
    set f | f in s.functions && s.functions[f].application == Some(app)
  }

  function LiveUsers(s: Store): set<Name> {
    set u | u in s.users && !s.users[u].profile.deleted
  }

  predicate ListsPermissions(s: Store, ps: seq<Entry<Text>>, permissions: set<Name>) {
    && DistinctNames(ps) && Names(ps) == permissions
    && forall p <- ps :: p.name in s.permissions && s.permissions[p.name] == p.body
  }

  predicate ListsAppFunction(s: Store, f: Entry<AppFunctionBody>) {
    && f.name in s.appFunctions && s.appFunctions[f.name].description == f.body.description
    && ListsPermissions(s, f.body.permissions, s.appFunctions[f.name].permissions)
  }

  predicate ListsAppFunctions(s: Store, app: Name, fs: seq<Entry<AppFunctionBody>>) {
    DistinctNames(fs) && Names(fs) == FunctionsOf(s, app) && forall f <- fs :: ListsAppFunction(s, f)
  }

  /** The data policies of an application are read inside the loop over its application functions:
      without application functions none are listed. */
  predicate ListsPolicies(s: Store, app: Name, fs: seq<Entry<AppFunctionBody>>, ps: seq<Entry<Text>>) {
    if fs == [] then ps == []
    else
      && DistinctNames(ps) && Names(ps) == PoliciesOf(s, app)
      && forall p <- ps :: p.name in s.dataPolicies && s.dataPolicies[p.name].description == p.body
  }

  predicate ListsApplication(s: Store, d: ApplicationDecl) {
    && ListsAppFunctions(s, d.name, d.body.functions)
    && ListsPolicies(s, d.name, d.body.functions, d.body.policies)
  }

  predicate ListsApplications(s: Store, ds: seq<ApplicationDecl>) {
    DistinctNames(ds) && Names(ds) == s.applications && forall d <- ds :: ListsApplication(s, d)
  }

  predicate ListsFunctions(s: Store, app: Name, fs: seq<Entry<FunctionBody>>) {
    && DistinctNames(fs) && Names(fs) == BusinessFunctionsOf(s, app)
    && forall f <- fs ::
         && f.name in s.functions && s.functions[f.name].description == f.body.description
         && Distinct(f.body.permissions) && Elements(f.body.permissions) == s.functions[f.name].permissions
  }

  predicate ListsRole(s: Store, d: Entry<RoleBody>) {
    && d.name in s.roles && s.roles[d.name] == RoleRow(d)
    && Distinct(d.body.functions) && Distinct(d.body.roles)
  }

  predicate ListsUser(s: Store, d: Entry<UserBody>) {
    && d.name in s.users && s.users[d.name] == User(d.body.profile, Elements(d.body.roles))
    && Distinct(d.body.roles)
  }

  predicate ListsTeam(s: Store, d: Entry<TeamBody>) {
    && d.name in s.teams && s.teams[d.name] == TeamRow(d)
    && Distinct(d.body.users) && Distinct(d.body.teams) && Distinct(d.body.policies)
  }

  predicate ListsDefaults(s: Store, d: DefaultConfiguration) {
    && DistinctNames(d.applications) && Names(d.applications) == s.applications
    && (forall a <- d.applications :: ListsFunctions(s, a.name, a.body))
    && DistinctNames(d.roles) && Names(d.roles) == s.roles.Keys
    && (forall r <- d.roles :: ListsRole(s, r))
    && DistinctNames(d.users) && Names(d.users) == LiveUsers(s)
    && (forall u <- d.users :: ListsUser(s, u))
    && DistinctNames(d.teams) && Names(d.teams) == s.teams.Keys
    && (forall t <- d.teams :: ListsTeam(s, t))
  }

  predicate IsExport(s: Store, c: Contract) {
    ListsApplications(s, c.applications) && |c.defaults| == 1 && ListsDefaults(s, c.defaults[0])
  }

  // ---- the service ----

  method ExportPermissions(db: A3SContext, permissions: set<Name>) returns (ps: seq<Entry<Text>>)
    requires permissions <= db.permissions.Keys
    ensures ListsPermissions(db.State(), ps, permissions)
  {
    var rows := Listing(permissions);
    ps := [];
    for i := 0 to |rows|
      invariant |ps| == i && forall k :: 0 <= k < i ==> ps[k] == Entry(rows[k], db.permissions[rows[k]])
    {
      ps := ps + [Entry(rows[i], db.permissions[rows[i]])];
    }
    NamedInOrder(rows, ps);
  }

  method ExportPolicies(db: A3SContext, app: Name) returns (ps: seq<Entry<Text>>)
    ensures DistinctNames(ps) && Names(ps) == PoliciesOf(db.State(), app)
    ensures forall p <- ps :: p.name in db.dataPolicies && db.dataPolicies[p.name].description == p.body
  {
    var rows := Listing(PoliciesOf(db.State(), app));
    ps := [];
    for i := 0 to |rows|
      invariant |ps| == i && forall k :: 0 <= k < i ==> ps[k] == Entry(rows[k], db.dataPolicies[rows[k]].description)
    {
      ps := ps + [Entry(rows[i], db.dataPolicies[rows[i]].description)];
    }
    NamedInOrder(rows, ps);
  }

  method ExportApplication(db: A3SContext, app: Name) returns (d: ApplicationDecl)
    requires WellFormed(db.State())
    ensures d.name == app && ListsApplication(db.State(), d)
  {
    var rows := Listing(FunctionsOf(db.State(), app));
    var fs: seq<Entry<AppFunctionBody>>, ps: seq<Entry<Text>> := [], [];
    for i := 0 to |rows|
      invariant |fs| == i && forall k :: 0 <= k < i ==> fs[k].name == rows[k] && ListsAppFunction(db.State(), fs[k])
      invariant ListsPolicies(db.State(), app, fs, ps)
    {
      var permissions := ExportPermissions(db, db.appFunctions[rows[i]].permissions);
      fs := fs + [Entry(rows[i], AppFunctionBody(db.appFunctions[rows[i]].description, permissions))];
      ps := ExportPolicies(db, app);
    }
    NamedInOrder(rows, fs);
    d := Entry(app, ApplicationBody(fs, ps));
  }

  method ExportFunctions(db: A3SContext, app: Name) returns (fs: seq<Entry<FunctionBody>>)
    ensures ListsFunctions(db.State(), app, fs)
  {
    var rows := Listing(BusinessFunctionsOf(db.State(), app));
    fs := [];
    for i := 0 to |rows|
      invariant |fs| == i && forall k :: 0 <= k < i ==>
        && fs[k].name == rows[k] && fs[k].body.description == db.functions[rows[k]].description
        && Distinct(fs[k].body.permissions) && Elements(fs[k].body.permissions) == db.functions[rows[k]].permissions
    {
      var permissions := Listing(db.functions[rows[i]].permissions);
      fs := fs + [Entry(rows[i], FunctionBody(db.functions[rows[i]].description, permissions))];
    }
    NamedInOrder(rows, fs);
  }

  method ExportRole(db: A3SContext, name: Name) returns (d: Entry<RoleBody>)
    requires name in db.roles
    ensures d.name == name && ListsRole(db.State(), d)
  {
    var functions := Listing(db.roles[name].functions);
    var children := Listing(db.roles[name].children);
    d := Entry(name, RoleBody(db.roles[name].description, functions, children));
  }

  /** Simple roles first, then compound ones. */
  method ExportRoles(db: A3SContext) returns (ds: seq<Entry<RoleBody>>)
    ensures DistinctNames(ds) && Names(ds) == db.roles.Keys
    ensures forall r <- ds :: ListsRole(db.State(), r)
  {
    var simple := Listing(set r | r in db.roles && db.roles[r].children == {});
    var compound := Listing(set r | r in db.roles && db.roles[r].children != {});
    var rows := simple + compound;
    RowsSplit(simple, compound, db.roles.Keys);
    ds := [];
    for i := 0 to |rows|
      invariant |ds| == i && forall k :: 0 <= k < i ==> ds[k].name == rows[k] && ListsRole(db.State(), ds[k])
    {
      assert rows[i] in Elements(rows);
      var d := ExportRole(db, rows[i]);
      ds := ds + [d];
    }
    NamedInOrder(rows, ds);
  }

  lemma RowsSplit(simple: seq<Name>, compound: seq<Name>, all: set<Name>)
    requires Distinct(simple) && Distinct(compound)
    requires Elements(simple) !! Elements(compound) && Elements(simple) + Elements(compound) == all
    ensures Distinct(simple + compound) && Elements(simple + compound) == all
  {
    assert forall k :: 0 <= k < |simple| ==> simple[k] in Elements(simple);
    assert forall k :: 0 <= k < |compound| ==> compound[k] in Elements(compound);
  }

  method ExportUsers(db: A3SContext) returns (ds: seq<Entry<UserBody>>)
    ensures DistinctNames(ds) && Names(ds) == LiveUsers(db.State())
    ensures forall u <- ds :: ListsUser(db.State(), u)
  {
    var rows := Listing(LiveUsers(db.State()));
    ds := [];
    for i := 0 to |rows|
      invariant |ds| == i && forall k :: 0 <= k < i ==>
        ds[k].name == rows[k] && ListsUser(db.State(), ds[k])
    {
      var roles := Listing(db.users[rows[i]].roles);
      ds := ds + [Entry(rows[i], UserBody(db.users[rows[i]].profile, roles))];
    }
    NamedInOrder(rows, ds);
  }

  method ExportTeam(db: A3SContext, name: Name) returns (d: Entry<TeamBody>)
    requires name in db.teams
    ensures d.name == name && ListsTeam(db.State(), d)
  {
    var policies := Listing(db.teams[name].policies);
    var users := Listing(db.teams[name].members);
    var children := Listing(db.teams[name].children);
    d := Entry(name, TeamBody(db.teams[name].description, users, children, policies));
  }

  /** Simple teams first, then compound ones. */
  method ExportTeams(db: A3SContext) returns (ds: seq<Entry<TeamBody>>)
    ensures DistinctNames(ds) && Names(ds) == db.teams.Keys
    ensures forall t <- ds :: ListsTeam(db.State(), t)
  {
    var simple := Listing(set t | t in db.teams && db.teams[t].children == {});
    var compound := Listing(set t | t in db.teams && db.teams[t].children != {});
    var rows := simple + compound;
    RowsSplit(simple, compound, db.teams.Keys);
    ds := [];
    for i := 0 to |rows|
      invariant |ds| == i && forall k :: 0 <= k < i ==> ds[k].name == rows[k] && ListsTeam(db.State(), ds[k])
    {
      assert rows[i] in Elements(rows);
      var d := ExportTeam(db, rows[i]);
      ds := ds + [d];
    }
    NamedInOrder(rows, ds);
  }

  method Export(db: A3SContext) returns (c: Contract)
    requires WellFormed(db.State())
    ensures IsExport(db.State(), c)
  {
    var applications: seq<ApplicationDecl>, defaults: seq<Entry<seq<Entry<FunctionBody>>>> := [], [];
    var rows := Listing(db.applications);
    for i := 0 to |rows|
      invariant |applications| == i && forall k :: 0 <= k < i ==>
        applications[k].name == rows[k] && ListsApplication(db.State(), applications[k])
    {
      var d := ExportApplication(db, rows[i]);
      applications := applications + [d];
    }
    NamedInOrder(rows, applications);
    rows := Listing(db.applications);
    for i := 0 to |rows|
      invariant |defaults| == i && forall k :: 0 <= k < i ==>
        defaults[k].name == rows[k] && ListsFunctions(db.State(), defaults[k].name, defaults[k].body)
    {
      var fs := ExportFunctions(db, rows[i]);
      defaults := defaults + [Entry(rows[i], fs)];
    }
    NamedInOrder(rows, defaults);
    var roles := ExportRoles(db);
    var users := ExportUsers(db);
    var teams := ExportTeams(db);
    c := Contract(applications, [DefaultConfiguration(defaults, roles, users, teams)]);
  }
}
