/** A whole security contract: what applying it means, and that applying it again changes nothing. */
module SecurityContract {
  import opened Results
  import opened Entries
  import opened Model
  import opened Invariants
  import opened SecurityContractApplication
  import opened SecurityContractDefaultConfiguration
  import opened ApplicationConvergence
  import opened ApplicationInvariants
  import RoleService
  import opened RolesSection
  import opened UsersSection
  import opened TeamsSection
  import opened ApplicationsSection

  datatype Contract = Contract(applications: seq<ApplicationDecl>, defaults: seq<DefaultConfiguration>)

  function AfterResourceServers(s: Store, ds: seq<ApplicationDecl>): Result<Store>
    decreases |ds|
  {
    if ds == [] then Ok(s) else
      var t :- SecurityContractApplication.AfterApply(s, ds[0]);
      AfterResourceServers(t, ds[1..])
  }

  function AfterDefaultList(s: Store, ds: seq<DefaultConfiguration>): Result<Store>
    decreases |ds|
  {
    if ds == [] then Ok(s) else
      var t :- AfterDefaults(s, ds[0]);
      AfterDefaultList(t, ds[1..])
  }

  function AfterContract(s: Store, c: Contract): Result<Store> {
    var t :- AfterResourceServers(s, c.applications);
    AfterDefaultList(t, c.defaults)
  }

  lemma SingleSection(s: Store, ds: seq<DefaultConfiguration>)
    requires |ds| == 1
    ensures AfterDefaultList(s, ds) == AfterDefaults(s, ds[0])
  {
    assert ds[1..] == [];
    var r := AfterDefaults(s, ds[0]);
    if r.Ok? {
      assert AfterDefaultList(r.value, ds[1..]) == r;
    }
  }

  // ---- every contract keeps the store sound ----

  lemma {:induction false} ResourceServersKeepSound(s: Store, ds: seq<ApplicationDecl>, t: Store)
    requires Sound(s) && AfterResourceServers(s, ds) == Ok(t)
    ensures Sound(t)
    decreases |ds|
  {
    if ds != [] {
      var u := SecurityContractApplication.AfterApply(s, ds[0]).value;
      ApplyKeepsSound(s, ds[0], u);
      ResourceServersKeepSound(u, ds[1..], t);
    }
  }

  lemma {:induction false} RoleListKeepsSound(s: Store, ds: seq<Entry<RoleBody>>, t: Store)
    requires Sound(s) && AfterRoleList(s, ds) == Ok(t)
    ensures Sound(t)
    decreases |ds|
  {
    if ds != [] {
      RoleService.WriteKeepsSound(s, ds[0].name, ds[0].body.description, ds[0].body.functions, Some(ds[0].body.roles));
      RoleListKeepsSound(AfterRole(s, ds[0]).value, ds[1..], t);
    }
  }

  lemma RolesKeepSound(s: Store, ds: seq<Entry<RoleBody>>, t: Store)
    requires Sound(s) && AfterRoles(s, ds) == Ok(t)
    ensures Sound(t) && t == s.(roles := t.roles)
  {
    var u := AfterRoleList(s, RolesWhere(false, ds)).value;
    RoleListKeepsSound(s, RolesWhere(false, ds), u);
    RoleListKeepsSound(u, RolesWhere(true, ds), t);
    RoleListFrame(s, RolesWhere(false, ds), u);
    RoleListFrame(u, RolesWhere(true, ds), t);
  }

  lemma DefaultsKeep(s: Store, d: DefaultConfiguration, t: Store)
    requires Sound(s) && AfterDefaults(s, d) == Ok(t)
    ensures Sound(t) && (FunctionsCovered(s) ==> FunctionsCovered(t))
    ensures t == s.(functions := t.functions, roles := t.roles, users := t.users, teams := t.teams)
  {
    var a := AfterApplications(s, d.applications).value;
    var r := AfterRoles(a, d.roles).value;
    var u := AfterUsers(r, d.users).value;
    ApplicationsKeep(s, d.applications, a);
    RolesKeepSound(a, d.roles, r);
    UsersKeepSound(r, d.users, u);
    TeamsFrame(u, d.teams, t);
  }

  lemma {:induction false} DefaultListKeeps(s: Store, ds: seq<DefaultConfiguration>, t: Store)
    requires Sound(s) && AfterDefaultList(s, ds) == Ok(t)
    ensures Sound(t) && (FunctionsCovered(s) ==> FunctionsCovered(t))
    ensures t == s.(functions := t.functions, roles := t.roles, users := t.users, teams := t.teams)
    decreases |ds|
  {
    if ds != [] {
      var u := AfterDefaults(s, ds[0]).value;
      DefaultsKeep(s, ds[0], u);
      DefaultListKeeps(u, ds[1..], t);
    }
  }

  /** Sound stores stay sound under every contract the services accept. */
  lemma ContractKeepsSound(s: Store, c: Contract, t: Store)
    requires Sound(s) && AfterContract(s, c) == Ok(t)
    ensures Sound(t)
  {
    var u := AfterResourceServers(s, c.applications).value;
    ResourceServersKeepSound(s, c.applications, u);
    DefaultListKeeps(u, c.defaults, t);
  }

  // ---- idempotence ----

  /** What a list of applications does not touch. */
  lemma {:induction false} ResourceServersFrame(s: Store, ds: seq<ApplicationDecl>, t: Store)
    requires AfterResourceServers(s, ds) == Ok(t)
    ensures t.applications == s.applications + Names(ds)
    ensures t.apiResources == s.apiResources + (Names(ds) - s.applications)
    ensures t.roles == s.roles && t.users == s.users && PoliciesAside(s.teams, t.teams)
    decreases |ds|
  {
    if ds != [] {
      hide SecurityContractApplication.AfterApply;
      var u := SecurityContractApplication.AfterApply(s, ds[0]).value;
      ApplyLeaves(s, ds[0], u);
      NamesSplit(ds);
      ResourceServersFrame(u, ds[1..], t);
    }
  }

  /** After any list of applications, a team has exactly those of its policies that no declaration of
      their own application left out. */
  lemma {:induction false} TeamsAfterResourceServers(s: Store, ds: seq<ApplicationDecl>, t: Store, x: Name, p: Name)
    requires Sound(s) && AfterResourceServers(s, ds) == Ok(t) && x in s.teams
    ensures x in t.teams && t.teams[x] == s.teams[x].(policies := t.teams[x].policies)
    ensures p in t.teams[x].policies <==>
              p in s.teams[x].policies && forall d <- ds ::
                d.name == s.dataPolicies[p].application ==> p in Names(d.body.policies)
    decreases |ds|
  {
    if ds != [] {
      hide SecurityContractApplication.AfterApply, Sound, WellFormed;
      SoundIsWellFormed(s);
      var u := SecurityContractApplication.AfterApply(s, ds[0]).value;
      ApplyKeepsSound(s, ds[0], u);
      TeamsAfterApply(s, ds[0], u);
      TeamsAfterResourceServers(u, ds[1..], t, x, p);
      assert forall d :: d in ds <==> d == ds[0] || d in ds[1..];
      if p in s.teams[x].policies {
        TeamPoliciesStored(s, x);
        PolicyAfterApplyIff(s, ds[0], u, p);
      }
    }
  }

  lemma TeamPoliciesStored(s: Store, x: Name)
    requires WellFormed(s) && x in s.teams
    ensures s.teams[x].policies <= s.dataPolicies.Keys
  {
  }

  lemma {:induction false} ResourceServersLeave(s: Store, d: ApplicationDecl, ds: seq<ApplicationDecl>, t: Store)
    requires WellFormed(s) && Sound(s) && Matches(s, d) && AfterResourceServers(s, ds) == Ok(t)
    requires forall e <- ds :: Distinctly(e) && e.name != d.name
    ensures Matches(t, d)
    decreases |ds|
  {
    if ds != [] {
      var u := SecurityContractApplication.AfterApply(s, ds[0]).value;
      ApplyConverges(s, ds[0], u);
      ApplyLeaves(s, ds[0], u);
      ApplyKeepsSound(s, ds[0], u);
      OthersKeepMatch(s, u, d, ds[0].name);
      ResourceServersLeave(u, d, ds[1..], t);
    }
  }

  lemma {:induction false} ResourceServersApplied(s: Store, ds: seq<ApplicationDecl>, t: Store)
    requires Sound(s) && AfterResourceServers(s, ds) == Ok(t)
    requires DistinctNames(ds) && forall d <- ds :: Distinctly(d)
    ensures forall d <- ds :: Matches(t, d)
    decreases |ds|
  {
    if ds != [] {
      hide SecurityContractApplication.AfterApply, Sound, WellFormed, Matches, Distinctly, FunctionsEnd;
      hide OthersUntouched;
      SoundIsWellFormed(s);
      hide DistinctNames;
      var u := SecurityContractApplication.AfterApply(s, ds[0]).value;
      assert forall d :: d in ds <==> d == ds[0] || d in ds[1..];
      ApplyConverges(s, ds[0], u);
      ApplyKeepsSound(s, ds[0], u);
      SoundIsWellFormed(u);
      DistinctSplit(ds);
      assert forall d <- ds[1..] :: d.name in Names(ds[1..]);
      ResourceServersLeave(u, ds[0], ds[1..], t);
      ResourceServersApplied(u, ds[1..], t);
    }
  }

  lemma {:induction false} ResourceServersFixed(s: Store, ds: seq<ApplicationDecl>)
    requires PermissionsHeld(s) && forall d <- ds :: Matches(s, d)
    ensures AfterResourceServers(s, ds) == Ok(s)
    decreases |ds|
  {
    if ds != [] {
      MatchedIsFixed(s, ds[0]);
      ResourceServersFixed(s, ds[1..]);
    }
  }

  /** Names are declared once, user names carry no white space around them, and no role or team lists
      itself. */
  predicate WellDeclaredDefaults(d: DefaultConfiguration) {
    && Separate(d.applications)
    && DistinctNames(d.roles) && RolesSection.NoOwnChild(d.roles)
    && DistinctNames(d.users) && Trimmed(d.users)
    && DistinctNames(d.teams) && TeamsSection.NoOwnChild(d.teams)
  }

  predicate WellDeclared(c: Contract) {
    && DistinctNames(c.applications) && (forall d <- c.applications :: Distinctly(d))
    && |c.defaults| <= 1 && (forall d <- c.defaults :: WellDeclaredDefaults(d))
  }

  predicate NoCompoundChildren(d: DefaultConfiguration) {
    RolesSection.NoCompoundChild(d.roles) && TeamsSection.NoCompoundChild(d.teams)
  }

  lemma UsersAgain(r: Store, ds: seq<Entry<UserBody>>, u: Store, t: Store)
    requires DistinctNames(ds) && Trimmed(ds) && AfterUsers(r, ds) == Ok(u)
    requires u.users == t.users && u.roles == t.roles
    ensures AfterUsers(t, ds) == Ok(t)
  {
    UsersApplied(r, ds, u);
    forall e <- ds ensures UserHolds(t, e) {
      assert UserHolds(u, e);
    }
    UsersFixed(t, ds);
  }

  /** Applying a default configuration again. */
  lemma DefaultsAgainIff(s: Store, d: DefaultConfiguration, t: Store)
    requires Sound(s) && WellDeclaredDefaults(d) && AfterDefaults(s, d) == Ok(t)
    ensures AfterDefaults(t, d).Ok? <==> NoCompoundChildren(d)
    ensures AfterDefaults(t, d) == Ok(t) <==> NoCompoundChildren(d) && NothingMovesIn(t, d.applications)
  {
    hide AfterApplications, AfterRoles, AfterUsers, AfterTeams, Sound, NothingMovesIn;
    var a := AfterApplications(s, d.applications).value;
    var r := AfterRoles(a, d.roles).value;
    var u := AfterUsers(r, d.users).value;
    ApplicationsKeep(s, d.applications, a);
    RolesKeepSound(a, d.roles, r);
    UsersFrame(r, d.users, u);
    TeamsFrame(u, d.teams, t);
    ApplicationsAgainIff(s, d.applications, a, t);
    var v := AfterApplications(t, d.applications).value;
    RolesAgainIff(a, d.roles, r, v);
    UsersAgain(r, d.users, u, v);
    TeamsAgainIff(u, d.teams, t, v);
  }

  /** Idempotence: a contract that was accepted is accepted again exactly when it lists no role or team
      that it declares with children as a child, and then changes nothing exactly when it also names no
      stored function under an application without application functions. */
  lemma ContractAgainIff(s: Store, c: Contract, t: Store)
    requires Sound(s) && WellDeclared(c) && AfterContract(s, c) == Ok(t)
    ensures AfterContract(t, c).Ok? <==> forall d <- c.defaults :: NoCompoundChildren(d)
    ensures AfterContract(t, c) == Ok(t) <==>
              forall d <- c.defaults :: NoCompoundChildren(d) && NothingMovesIn(t, d.applications)
  {
    hide AfterDefaults, NoCompoundChildren, NothingMovesIn, AfterResourceServers, Sound;
    var u := AfterResourceServers(s, c.applications).value;
    ResourceServersApplied(s, c.applications, u);
    ResourceServersKeepSound(s, c.applications, u);
    DefaultListKeeps(u, c.defaults, t);
    forall d <- c.applications ensures Matches(t, d) {
      assert Matches(u, d);
    }
    ResourceServersFixed(t, c.applications);
    if c.defaults != [] {
      assert c.defaults == [c.defaults[0]];
      SingleSection(u, c.defaults);
      SingleSection(t, c.defaults);
      DefaultsAgainIff(u, c.defaults[0], t);
    }
  }
}
