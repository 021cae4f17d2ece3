/** Applying a default configuration: business functions of applications, roles, users and teams. */
module SecurityContractDefaultConfiguration {
  import opened Results
  import opened Entries
  import opened Strings
  import opened Model
  import opened Invariants
  import opened Assignments
  import FunctionService
  import RoleService
  import UserService
  import TeamService

  datatype FunctionBody = FunctionBody(description: Text, permissions: seq<Name>)
  datatype RoleBody = RoleBody(description: Text, functions: seq<Name>, roles: seq<Name>)
  datatype UserBody = UserBody(profile: Profile, roles: seq<Name>)
  datatype TeamBody = TeamBody(description: Text, users: seq<Name>, teams: seq<Name>, policies: seq<Name>)

  /** An absent section is an empty list. */
  datatype DefaultConfiguration = DefaultConfiguration(
    applications: seq<Entry<seq<Entry<FunctionBody>>>>,
    roles: seq<Entry<RoleBody>>,
    users: seq<Entry<UserBody>>,
    teams: seq<Entry<TeamBody>>)

  // ---- business functions ----

  /** The functions in memory while an application's list is walked; `twice` records that two new
      functions share a name, or that a function has been given a row twice: either is refused when the
      list is saved. */
  datatype Pending = Pending(functions: map<Name, Function>, twice: bool)

  predicate HasAppFunctions(s: Store, app: Name) {
    exists f <- s.appFunctions :: s.appFunctions[f].application == app
  }

  /** A permission is added once for every application function of the application that holds it. */
  predicate AddsOnce(s: Store, app: Name, permissions: seq<Name>) {
    Distinct(permissions) && forall p <- permissions :: !HeldTwice(s.appFunctions, app, p)
  }

  function Put(s: Store, acc: Pending, name: Name, f: Function, once: bool): Pending {
    Pending(acc.functions[name := f], acc.twice || !once || (name in acc.functions && name !in s.functions))
  }

  /** Where a stored function belongs once its application has been set and the application's own list
      has not taken it in: a function of another application, or of none, has moved; a function of the
      application has been dropped from its list. */
  function Moved(s: Store, app: Name, f: Name): Option<Name>
    requires f in s.functions
  {
    if s.functions[f].application == Some(app) then None else Some(app)
  }

  /** Without application functions no permission is looked up: a stored function loses its
      permissions and is moved, and no new one is made. */
  function PutEmpty(s: Store, app: Name, acc: Pending, f: Entry<FunctionBody>): Pending {
    if f.name in s.functions then Put(s, acc, f.name, Function(Moved(s, app, f.name), f.body.description, {}), true)
    else acc
  }

  /** The walk ends at the first function without permissions. */
  function AssignFunctions(s: Store, app: Name, fs: seq<Entry<FunctionBody>>, acc: Pending): Result<Pending>
    decreases |fs|
  {
    if fs == [] || fs[0].body.permissions == [] then Ok(acc)
    else if !HasAppFunctions(s, app) then AssignFunctions(s, app, fs[1..], PutEmpty(s, app, acc, fs[0]))
    else
      CheckPresent(HeldBy(s.appFunctions, app), fs[0].body.permissions).Then(
        AssignFunctions(s, app, fs[1..],
          Put(s, acc, fs[0].name, Function(Some(app), fs[0].body.description, Elements(fs[0].body.permissions)),
              AddsOnce(s, app, fs[0].body.permissions))))
  }

  function Undeclared(s: Store, app: Name, fs: seq<Entry<FunctionBody>>): set<Name> {
    set f | f in s.functions && s.functions[f].application == Some(app) && f !in Names(fs)
  }

  function Detached(s: Store, app: Name): map<Name, Function> {
    map f | f in s.functions ::
      if s.functions[f].application == Some(app) then s.functions[f].(application := None) else s.functions[f]
  }

  function AfterApplication(s: Store, d: Entry<seq<Entry<FunctionBody>>>): Result<Store> {
    if d.name !in s.applications || d.body == [] then Ok(s)
    else
      var t := FunctionService.WithoutFunctions(s, Undeclared(s, d.name, d.body));
      var acc :- AssignFunctions(t, d.name, d.body, Pending(Detached(t, d.name), false));
      if acc.twice then Err(Conflict(d.name)) else Ok(t.(functions := acc.functions))
  }

  // ---- roles, users and teams ----

  function AfterRole(s: Store, d: Entry<RoleBody>): Result<Store> {
    RoleService.AfterWrite(s, d.name, d.body.description, d.body.functions, Some(d.body.roles))
  }

  function UserRow(d: Entry<UserBody>): User {
    User(d.body.profile.(email := Trim(d.body.profile.email)), Elements(d.body.roles))
  }

  /** The stored user is looked up by the name as declared and saved under the trimmed name. */
  function AfterUser(s: Store, d: Entry<UserBody>): Result<Store> {
    var name := Trim(d.name);
    CheckPresent(s.roles.Keys, d.body.roles).Then(
      if d.name !in s.users && name in s.users then Err(NotProcessable(name))
      else
        CheckKeys(name, d.body.roles).Then(
          if d.name !in s.users then Ok(s.(users := s.users[name := UserRow(d)]))
          else if name != d.name && name in s.users then Err(Conflict(name))
          else
            var t := UserService.AfterRename(s, d.name, name);
            Ok(t.(users := t.users[name := UserRow(d)]))))
  }

  function TeamRow(d: Entry<TeamBody>): Team {
    Team(d.body.description, Elements(d.body.users), Elements(d.body.teams), Elements(d.body.policies))
  }

  function CheckMembers(s: Store, d: Entry<TeamBody>): Outcome {
    if d.body.users != [] && d.body.teams != [] then Fail(NotProcessable(d.name))
    else CheckPresent(s.users.Keys, d.body.users)
  }

  function AfterTeam(s: Store, d: Entry<TeamBody>): Result<Store> {
    var members := if d.name in s.teams then s.teams[d.name].members else {};
    TeamService.CheckChildTeams(s, d.name, members, d.body.teams).Then(
      CheckMembers(s, d).Then(
        CheckPresent(s.dataPolicies.Keys, d.body.policies).Then(
          CheckKeys(d.name, d.body.teams).Then(
            CheckKeys(d.name, d.body.users).Then(
              CheckKeys(d.name, d.body.policies).Then(
                Ok(s.(teams := s.teams[d.name := TeamRow(d)]))))))))
  }

  // ---- sections ----

  function AfterApplications(s: Store, ds: seq<Entry<seq<Entry<FunctionBody>>>>): Result<Store>
    decreases |ds|
  {
    if ds == [] then Ok(s) else
      var t :- AfterApplication(s, ds[0]);
      AfterApplications(t, ds[1..])
  }

  function AfterRoleList(s: Store, ds: seq<Entry<RoleBody>>): Result<Store>
    decreases |ds|
  {
    if ds == [] then Ok(s) else
      var t :- AfterRole(s, ds[0]);
      AfterRoleList(t, ds[1..])
  }

  function AfterUsers(s: Store, ds: seq<Entry<UserBody>>): Result<Store>
    decreases |ds|
  {
    if ds == [] then Ok(s) else
      var t :- AfterUser(s, ds[0]);
      AfterUsers(t, ds[1..])
  }

  function AfterTeamList(s: Store, ds: seq<Entry<TeamBody>>): Result<Store>
    decreases |ds|
  {
    if ds == [] then Ok(s) else
      var t :- AfterTeam(s, ds[0]);
      AfterTeamList(t, ds[1..])
  }

  /** The roles with (or without) child roles, in list order. */
  function RolesWhere(compound: bool, ds: seq<Entry<RoleBody>>): seq<Entry<RoleBody>> {
    if ds == [] then []
    else (if (ds[0].body.roles != []) == compound then [ds[0]] else []) + RolesWhere(compound, ds[1..])
  }

  function TeamsWhere(compound: bool, ds: seq<Entry<TeamBody>>): seq<Entry<TeamBody>> {
    if ds == [] then []
    else (if (ds[0].body.teams != []) == compound then [ds[0]] else []) + TeamsWhere(compound, ds[1..])
  }

  function AfterRoles(s: Store, ds: seq<Entry<RoleBody>>): Result<Store> {
    var t :- AfterRoleList(s, RolesWhere(false, ds));
    AfterRoleList(t, RolesWhere(true, ds))
  }

  function AfterTeams(s: Store, ds: seq<Entry<TeamBody>>): Result<Store> {
    var t :- AfterTeamList(s, TeamsWhere(false, ds));
    AfterTeamList(t, TeamsWhere(true, ds))
  }

  function AfterDefaults(s: Store, d: DefaultConfiguration): Result<Store> {
    var a :- AfterApplications(s, d.applications);
    var r :- AfterRoles(a, d.roles);
    var u :- AfterUsers(r, d.users);
    AfterTeams(u, d.teams)
  }

  // ---- the service ----

  /** One permission of one function: a row for every application function that holds it. */
  method AssignPermission(s: Store, own: seq<Name>, app: Name, p: Name, before: seq<Name>)
    returns (found: bool, rows: seq<Name>)
    requires Distinct(own) && Elements(own) == set f | f in s.appFunctions && s.appFunctions[f].application == app
    ensures found <==> p in HeldBy(s.appFunctions, app)
    ensures Elements(rows) == Elements(before) + if found then {p} else {}
    ensures found ==> (Distinct(rows) <==> Distinct(before) && p !in before && !HeldTwice(s.appFunctions, app, p))
  {
    found, rows := false, before;
    forall k | 0 <= k < |own| ensures own[k] in s.appFunctions {
      assert own[k] in Elements(own);
    }
    for i := 0 to |own|
      invariant found <==> exists k :: 0 <= k < i && p in s.appFunctions[own[k]].permissions
      invariant Elements(rows) == Elements(before) + if found then {p} else {}
      invariant !found ==> rows == before
      invariant found ==>
        (Distinct(rows) <==> Distinct(before) && p !in before && !HeldBySome(s, own, p, i))
    {
      if p in s.appFunctions[own[i]].permissions {
        DistinctAppend(rows, p);
        found := true;
        rows := rows + [p];
      }
    }
    HeldTwiceListed(s, own, app, p);
  }

  /** Two of the first `n` listed application functions hold the permission. */
  predicate HeldBySome(s: Store, own: seq<Name>, p: Name, n: nat)
    requires n <= |own| && forall f <- own :: f in s.appFunctions
  {
    exists k, l :: 0 <= k < l < n && p in s.appFunctions[own[k]].permissions && p in s.appFunctions[own[l]].permissions
  }

  lemma HeldTwiceListed(s: Store, own: seq<Name>, app: Name, p: Name)
    requires Distinct(own) && Elements(own) == set f | f in s.appFunctions && s.appFunctions[f].application == app
    requires forall f <- own :: f in s.appFunctions
    ensures HeldTwice(s.appFunctions, app, p) <==> HeldBySome(s, own, p, |own|)
    ensures p in HeldBy(s.appFunctions, app) <==> exists k :: 0 <= k < |own| && p in s.appFunctions[own[k]].permissions
  {
    forall k | 0 <= k < |own| ensures s.appFunctions[own[k]].application == app {
      assert own[k] in Elements(own);
    }
    if HeldTwice(s.appFunctions, app, p) {
      var f, g :| f in s.appFunctions && g in s.appFunctions && f != g
                  && s.appFunctions[f].application == app == s.appFunctions[g].application
                  && p in s.appFunctions[f].permissions && p in s.appFunctions[g].permissions;
      assert f in Elements(own) && g in Elements(own);
      var k :| 0 <= k < |own| && own[k] == f;
      var l :| 0 <= l < |own| && own[l] == g;
      assert k < l || l < k;
    }
    if p in HeldBy(s.appFunctions, app) {
      var f :| f in s.appFunctions && s.appFunctions[f].application == app && p in s.appFunctions[f].permissions;
      assert f in Elements(own);
    }
  }

  /** Collects the rows of one function, going through every application function for every
      permission: no row is collected twice exactly when `AddsOnce` holds. */
  method AssignPermissions(s: Store, app: Name, permissions: seq<Name>) returns (r: Outcome, rows: seq<Name>)
    requires HasAppFunctions(s, app)
    ensures r == CheckPresent(HeldBy(s.appFunctions, app), permissions)
    ensures r.Pass? ==> Elements(rows) == Elements(permissions) && (Distinct(rows) <==> AddsOnce(s, app, permissions))
  {
    hide HeldBy, HeldTwice;
    rows := [];
    var own := Listing(set f | f in s.appFunctions && s.appFunctions[f].application == app);
    for i := 0 to |permissions|
      invariant Elements(rows) == Elements(permissions[..i])
      invariant Distinct(rows) <==> AddsOnce(s, app, permissions[..i])
      invariant CheckPresent(HeldBy(s.appFunctions, app), permissions) ==
                CheckPresent(HeldBy(s.appFunctions, app), permissions[i..])
    {
      var p, before := permissions[i], rows;
      var found: bool;
      found, rows := AssignPermission(s, own, app, p, before);
      if !found {
        return Fail(NotFound(p)), rows;
      }
      assert permissions[..i + 1] == permissions[..i] + [p];
      DistinctAppend(permissions[..i], p);
      SameElements(before, permissions[..i], p);
    }
    assert permissions[..|permissions|] == permissions;
    return Pass, rows;
  }

  lemma SameElements(xs: seq<Name>, ys: seq<Name>, x: Name)
    requires Elements(xs) == Elements(ys)
    ensures x in xs <==> x in ys
    ensures Elements(ys + [x]) == Elements(ys) + {x}
  {
    assert x in Elements(xs) <==> x in Elements(ys);
  }

  lemma FunctionsNothing(s: Store)
    ensures FunctionService.WithoutFunctions(s, {}) == s
  {
    assert forall r <- s.roles :: s.roles[r].functions - {} == s.roles[r].functions;
    var t := FunctionService.WithoutFunctions(s, {});
    assert t.roles == s.roles && t.functions == s.functions;
  }

  lemma FunctionsOneMore(s: Store, gone: set<Name>, one: Name)
    ensures FunctionService.WithoutFunctions(FunctionService.WithoutFunctions(s, gone), {one}) ==
            FunctionService.WithoutFunctions(s, gone + {one})
  {
    assert forall xs: set<Name> :: xs - gone - {one} == xs - (gone + {one});
    var a := FunctionService.WithoutFunctions(FunctionService.WithoutFunctions(s, gone), {one});
    var b := FunctionService.WithoutFunctions(s, gone + {one});
    assert a.roles == b.roles && a.functions == b.functions;
  }

  /** Deletes the functions of an application that its list does not name. */
  method RemoveUndeclared(db: A3SContext, app: Name, fs: seq<Entry<FunctionBody>>)
    modifies db`functions, db`roles
    ensures db.State() == FunctionService.WithoutFunctions(old(db.State()), Undeclared(old(db.State()), app, fs))
  {
    var rows := Listing(set f | f in db.functions && db.functions[f].application == Some(app));
    ghost var before := db.State();
    FunctionsNothing(before);
    assert Elements(rows[|rows|..]) - Names(fs) == {};
    for i := |rows| downto 0
      invariant db.State() == FunctionService.WithoutFunctions(before, Elements(rows[i..]) - Names(fs))
    {
      assert rows[i..] == [rows[i]] + rows[i + 1..];
      ghost var gone := Elements(rows[i + 1..]) - Names(fs);
      if rows[i] in Names(fs) {
        assert Elements(rows[i..]) - Names(fs) == gone;
      } else {
        assert Elements(rows[i..]) - Names(fs) == gone + {rows[i]};
        FunctionsOneMore(before, gone, rows[i]);
        var remaining := FunctionService.WithoutFunctions(db.State(), {rows[i]});
        db.functions, db.roles := remaining.functions, remaining.roles;
      }
    }
    assert Elements(rows) - Names(fs) == Undeclared(before, app, fs);
  }

  method ApplyApplication(db: A3SContext, d: Entry<seq<Entry<FunctionBody>>>) returns (r: Outcome)
    modifies db`functions, db`roles
    ensures Realises(r, db.State(), AfterApplication(old(db.State()), d))
  {
    if d.name !in db.applications || d.body == [] {
      return Pass;
    }
    RemoveUndeclared(db, d.name, d.body);
    var t := db.State();
    var acc := Pending(Detached(t, d.name), false);
    ghost var start := acc;
    var i := 0;
    while i < |d.body| && d.body[i].body.permissions != []
      invariant 0 <= i <= |d.body| && db.State() == t
      invariant AssignFunctions(t, d.name, d.body, start) == AssignFunctions(t, d.name, d.body[i..], acc)
    {
      var f := d.body[i];
      if !HasAppFunctions(t, d.name) {
        acc := PutEmpty(t, d.name, acc, f);
      } else {
        var rows: seq<Name>;
        r, rows := AssignPermissions(t, d.name, f.body.permissions);
        if r.Fail? {
          return;
        }
        acc := Put(t, acc, f.name, Function(Some(d.name), f.body.description, Elements(rows)), Distinct(rows));
      }
      i := i + 1;
    }
    if acc.twice {
      return Fail(Conflict(d.name));
    }
    db.functions := acc.functions;
    r := Pass;
  }

  method ApplyRole(db: A3SContext, d: Entry<RoleBody>) returns (r: Outcome)
    modifies db`roles
    ensures Realises(r, db.State(), AfterRole(old(db.State()), d))
  {
    var role: Role;
    r, role := RoleService.AssignRows(db.State(), d.name, d.body.description, d.body.functions, Some(d.body.roles));
    if r.Pass? {
      db.roles := db.roles[d.name := role];
    }
  }

  method ApplyUser(db: A3SContext, d: Entry<UserBody>) returns (r: Outcome)
    modifies db`users, db`teams
    ensures Realises(r, db.State(), AfterUser(old(db.State()), d))
  {
    var name := Trim(d.name);
    var rows: seq<Name>;
    r, rows := AssignPresent(db.roles.Keys, d.body.roles);
    if r.Fail? {
      return;
    }
    var user := User(d.body.profile.(email := Trim(d.body.profile.email)), Elements(rows));
    if d.name in db.users {
      if !Distinct(rows) || (name != d.name && name in db.users) {
        return Fail(Conflict(name));
      }
      var tracked := UserService.AfterRename(db.State(), d.name, name);
      db.users, db.teams := tracked.users[name := user], tracked.teams;
    } else {
      if name in db.users {
        return Fail(NotProcessable(name));
      }
      if !Distinct(rows) {
        return Fail(Conflict(name));
      }
      db.users := db.users[name := user];
    }
  }

  method ApplyTeam(db: A3SContext, d: Entry<TeamBody>) returns (r: Outcome)
    modifies db`teams
    ensures Realises(r, db.State(), AfterTeam(old(db.State()), d))
  {
    var children, members, policies: seq<Name> := [], [], [];
    if d.body.teams != [] {
      if d.name in db.teams && db.teams[d.name].members != {} {
        return Fail(NotProcessable(d.name));
      }
      r, children := AssignLeaves(TeamGraph(db.State()), d.body.teams);
      if r.Fail? {
        return;
      }
    }
    if d.body.users != [] && d.body.teams != [] {
      return Fail(NotProcessable(d.name));
    }
    r, members := AssignPresent(db.users.Keys, d.body.users);
    if r.Fail? {
      return;
    }
    r, policies := AssignPresent(db.dataPolicies.Keys, d.body.policies);
    if r.Fail? {
      return;
    }
    if !Distinct(children) || !Distinct(members) || !Distinct(policies) {
      return Fail(Conflict(d.name));
    }
    db.teams := db.teams[d.name := Team(d.body.description, Elements(members), Elements(children), Elements(policies))];
  }

  method Apply(db: A3SContext, d: DefaultConfiguration) returns (r: Outcome)
    modifies db`functions, db`roles, db`users, db`teams
    ensures Realises(r, db.State(), AfterDefaults(old(db.State()), d))
  {
    hide AfterApplication, AfterRole, AfterUser, AfterTeam;
    ghost var s := db.State();
    for i := 0 to |d.applications|
      invariant AfterApplications(s, d.applications) == AfterApplications(db.State(), d.applications[i..])
    {
      :- ApplyApplication(db, d.applications[i]);
    }
    ghost var a := db.State();
    var simple, compound := RolesWhere(false, d.roles), RolesWhere(true, d.roles);
    for i := 0 to |simple|
      invariant AfterRoleList(a, simple) == AfterRoleList(db.State(), simple[i..])
    {
      :- ApplyRole(db, simple[i]);
    }
    ghost var b := db.State();
    for i := 0 to |compound|
      invariant AfterRoleList(b, compound) == AfterRoleList(db.State(), compound[i..])
    {
      :- ApplyRole(db, compound[i]);
    }
    ghost var c := db.State();
    for i := 0 to |d.users|
      invariant AfterUsers(c, d.users) == AfterUsers(db.State(), d.users[i..])
    {
      :- ApplyUser(db, d.users[i]);
    }
    ghost var u := db.State();
    var simpleTeams, compoundTeams := TeamsWhere(false, d.teams), TeamsWhere(true, d.teams);
    for i := 0 to |simpleTeams|
      invariant AfterTeamList(u, simpleTeams) == AfterTeamList(db.State(), simpleTeams[i..])
    {
      :- ApplyTeam(db, simpleTeams[i]);
    }
    ghost var v := db.State();
    for i := 0 to |compoundTeams|
      invariant AfterTeamList(v, compoundTeams) == AfterTeamList(db.State(), compoundTeams[i..])
    {
      :- ApplyTeam(db, compoundTeams[i]);
    }
    r := Pass;
  }
}
