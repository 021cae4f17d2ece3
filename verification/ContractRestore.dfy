/** Restoring a store from its exported contract, onto nothing or onto a store that is part of it. */
module ContractRestore {
  import opened Results
  import opened Entries
  import opened Model
  import opened Graphs
  import opened Invariants
  import opened SecurityContractApplication
  import opened SecurityContractDefaultConfiguration
  import opened ApplicationConvergence
  import opened ApplicationInvariants
  import opened SecurityContract
  import opened RolesSection
  import opened UsersSection
  import opened TeamsSection
  import opened ApplicationsSection
  import opened ContractExport
  import opened ContractReapply
  import Stranding

  /** Names that both stores have mean the same. */
  predicate RowsWithin(x: Store, s: Store) {
    && (forall f <- x.appFunctions ::
          f in s.appFunctions && s.appFunctions[f].application == x.appFunctions[f].application)
    && (forall p <- x.dataPolicies ::
          p in s.dataPolicies && s.dataPolicies[p].application == x.dataPolicies[p].application)
    && (forall p <- x.permissions :: p in s.permissions && s.permissions[p] == x.permissions[p])
  }

  /** Everything in `b` has its name in `s` as well, and means the same there; `b` has no teams yet. */
  predicate Within(b: Store, s: Store) {
    && RowsWithin(b, s) && b.applications <= s.applications
    && (forall f <- b.functions ::
          && b.functions[f].application.Some? && f in s.functions
          && s.functions[f].application == b.functions[f].application)
    && b.roles.Keys <= s.roles.Keys && b.users.Keys <= LiveUsers(s) && b.teams == map[]
  }

  /** Two application functions of an application hold the same permission only if the permission is
      held by any application when this one's turn comes. */
  ghost predicate HeldOnceOnto(b: Store, s: Store, ds: seq<ApplicationDecl>) {
    forall j, p :: 0 <= j < |ds| && HeldTwice(s.appFunctions, ds[j].name, p) ==>
      Stranding.SomeoneHolds(b, ds[..j], p)
  }

  /** Everything in the store is something the contract carries. */
  predicate Carried(s: Store) {
    && (forall f <- s.functions :: s.functions[f].application.Some?)
    && (forall u <- s.users :: !s.users[u].profile.deleted)
  }

  /** The store with an API resource for every application that the contract has created. */
  function RegisteredOnto(b: Store, s: Store): Store {
    s.(apiResources := b.apiResources + (s.applications - b.applications))
  }

  function Registered(s: Store): Store {
    s.(apiResources := s.applications)
  }

  // ---- applications are accepted ----

  lemma ListedOnce(x: Store, s: Store, d: ApplicationDecl, a: int, i: int, e: int, j: int)
    requires ListsApplication(s, d) && DeclaredTwice(x, d.body.functions, a, i, e, j)
    requires forall p :: HeldTwice(s.appFunctions, d.name, p) ==> p in x.permissions
    ensures a == e && i == j
  {
    var fs := d.body.functions;
    assert ListsAppFunction(s, fs[a]) && ListsAppFunction(s, fs[e]);
    var p := fs[a].body.permissions[i];
    assert fs[a].body.permissions[i] in fs[a].body.permissions && fs[e].body.permissions[j] in fs[e].body.permissions;
    assert p.name in s.appFunctions[fs[a].name].permissions && p.name in s.appFunctions[fs[e].name].permissions;
    assert fs[a].name in Names(fs) && fs[e].name in Names(fs);
    assert fs[a].name in FunctionsOf(s, d.name) && fs[e].name in FunctionsOf(s, d.name);
    assert a != e ==> HeldTwice(s.appFunctions, d.name, p.name);
  }

  lemma HeldTwiceIsDeclaredTwice(x: Store, s: Store, d: ApplicationDecl, f: Name, g: Name, p: Name)
    requires ListsApplication(s, d) && f in FunctionsOf(s, d.name) && g in FunctionsOf(s, d.name) && f != g
    requires p in s.appFunctions[f].permissions && p in s.appFunctions[g].permissions && p !in x.permissions
    ensures !NamedOnce(x, d.body.functions)
  {
    var fs := d.body.functions;
    var i :| 0 <= i < |fs| && fs[i].name == f;
    var j :| 0 <= j < |fs| && fs[j].name == g;
    assert ListsAppFunction(s, fs[i]) && ListsAppFunction(s, fs[j]);
    assert p in Names(fs[i].body.permissions) && p in Names(fs[j].body.permissions);
    var k :| 0 <= k < |fs[i].body.permissions| && fs[i].body.permissions[k].name == p;
    var l :| 0 <= l < |fs[j].body.permissions| && fs[j].body.permissions[l].name == p;
    assert DeclaredTwice(x, fs, i, k, j, l);
  }

  lemma OwnsExported(x: Store, s: Store, d: ApplicationDecl)
    requires RowsWithin(x, s) && ListsApplication(s, d)
    ensures Owns(x, d)
  {
    assert forall f <- Names(d.body.functions) :: f in FunctionsOf(s, d.name);
    assert forall p <- Names(d.body.policies) :: p in PoliciesOf(s, d.name);
  }

  /** An exported application is accepted exactly when the permissions it holds twice are stored. */
  lemma ExportAcceptedIff(x: Store, s: Store, d: ApplicationDecl)
    requires WellFormed(x) && RowsWithin(x, s) && ListsApplication(s, d)
    ensures AfterApply(x, d).Ok? <==> forall p :: HeldTwice(s.appFunctions, d.name, p) ==> p in x.permissions
  {
    hide AfterApply, WellFormed, RowsWithin, Owns;
    OwnsExported(x, s, d);
    AcceptedIff(x, d);
    if forall p :: HeldTwice(s.appFunctions, d.name, p) ==> p in x.permissions {
      forall a, i, e, j | DeclaredTwice(x, d.body.functions, a, i, e, j) ensures a == e && i == j {
        ListedOnce(x, s, d, a, i, e, j);
      }
    } else {
      var p :| HeldTwice(s.appFunctions, d.name, p) && p !in x.permissions;
      var f, g :| f in s.appFunctions && g in s.appFunctions && f != g
                  && s.appFunctions[f].application == d.name == s.appFunctions[g].application
                  && p in s.appFunctions[f].permissions && p in s.appFunctions[g].permissions;
      HeldTwiceIsDeclaredTwice(x, s, d, f, g, p);
    }
  }

  // ---- the rows stay within the store ----

  lemma AppliedIsWithin(x: Store, s: Store, d: ApplicationDecl, t: Store)
    requires RowsWithin(x, s) && ListsApplication(s, d) && AfterApply(x, d) == Ok(t)
    requires Matches(t, d) && OthersUntouched(x, t, d.name)
    ensures RowsWithin(t, s)
  {
    hide AfterApply;
    AppliedPermissions(x, d, t);
    forall p <- t.permissions ensures p in s.permissions && s.permissions[p] == t.permissions[p] {
      if Declares(d.body.functions, Entry(p, t.permissions[p])) {
        var f :| f in d.body.functions && Entry(p, t.permissions[p]) in f.body.permissions;
        assert ListsAppFunction(s, f);
      }
    }
    forall f <- t.appFunctions
      ensures f in s.appFunctions && s.appFunctions[f].application == t.appFunctions[f].application
    {
      assert t.appFunctions[f].application == d.name ==> f in FunctionsOf(s, d.name);
    }
    forall p <- t.dataPolicies
      ensures p in s.dataPolicies && s.dataPolicies[p].application == t.dataPolicies[p].application
    {
      assert t.dataPolicies[p].application == d.name ==> p in Names(d.body.policies) && p in PoliciesOf(s, d.name);
    }
  }

  lemma ExportIsDistinct(s: Store, d: ApplicationDecl)
    requires ListsApplication(s, d)
    ensures Distinctly(d)
  {
  }

  lemma StoredIsHeld(x: Store, ds: seq<ApplicationDecl>)
    requires Sound(x)
    ensures forall p :: p in x.permissions <==> Stranding.SomeoneHolds(x, ds[..0], p)
  {
    assert ds[..0] == [];
    forall p ensures p in x.permissions <==> Stranding.SomeoneHolds(x, ds[..0], p) {
      Stranding.NothingApplied(x, p);
      assert p in Held(x.appFunctions) ==> p in x.permissions;
    }
  }

  /** What decides for the whole list decides for the first application and, on what it leaves, for
      the rest. */
  lemma HeldOnceSplit(x: Store, s: Store, ds: seq<ApplicationDecl>, t: Store)
    requires ds != [] && Sound(x) && AfterApply(x, ds[0]) == Ok(t)
    ensures HeldOnceOnto(x, s, ds) <==>
            && (forall p :: HeldTwice(s.appFunctions, ds[0].name, p) ==> p in x.permissions)
            && HeldOnceOnto(t, s, ds[1..])
  {
    hide AfterApply, Sound, HeldTwice, Stranding.SomeoneHolds;
    Stranding.ApplyHolds(x, ds[0], t);
    StoredIsHeld(x, ds);
    forall j, p | 0 <= j < |ds[1..]|
      ensures Stranding.SomeoneHolds(t, ds[1..][..j], p) <==> Stranding.SomeoneHolds(x, ds[..j + 1], p)
    {
      Stranding.SomeoneHoldsRest(x, ds, t, j, p);
    }
    assert forall j :: 0 <= j < |ds[1..]| ==> ds[1..][j] == ds[j + 1];
    if HeldOnceOnto(x, s, ds) {
      forall j, p | 0 <= j < |ds[1..]| && HeldTwice(s.appFunctions, ds[1..][j].name, p)
        ensures Stranding.SomeoneHolds(t, ds[1..][..j], p)
      {
        assert HeldTwice(s.appFunctions, ds[j + 1].name, p);
      }
    }
    if HeldOnceOnto(t, s, ds[1..]) && forall p :: HeldTwice(s.appFunctions, ds[0].name, p) ==> p in x.permissions {
      forall j, p | 0 <= j < |ds| && HeldTwice(s.appFunctions, ds[j].name, p)
        ensures Stranding.SomeoneHolds(x, ds[..j], p)
      {
        assert j > 0 ==> HeldTwice(s.appFunctions, ds[1..][j - 1].name, p);
      }
    }
  }

  /** The exported applications are accepted exactly when the order suits. */
  lemma {:induction false} ExportsAcceptedIff(x: Store, s: Store, ds: seq<ApplicationDecl>)
    requires Sound(x) && RowsWithin(x, s) && forall d <- ds :: ListsApplication(s, d)
    ensures AfterResourceServers(x, ds).Ok? <==> HeldOnceOnto(x, s, ds)
    ensures AfterResourceServers(x, ds).Ok? ==> RowsWithin(AfterResourceServers(x, ds).value, s)
    decreases |ds|
  {
    if ds != [] {
      hide AfterApply, Sound, RowsWithin, HeldOnceOnto, ListsApplication;
      var d := ds[0];
      SoundIsWellFormed(x);
      ExportAcceptedIff(x, s, d);
      if AfterApply(x, d).Ok? {
        var t := AfterApply(x, d).value;
        ExportIsDistinct(s, d);
        ApplyConverges(x, d, t);
        AppliedIsWithin(x, s, d, t);
        ApplyKeepsSound(x, d, t);
        HeldOnceSplit(x, s, ds, t);
        ExportsAcceptedIff(t, s, ds[1..]);
      } else {
        NotHeldOnce(x, s, ds);
      }
    }
  }

  lemma NotHeldOnce(x: Store, s: Store, ds: seq<ApplicationDecl>)
    requires ds != [] && Sound(x)
    requires exists p :: HeldTwice(s.appFunctions, ds[0].name, p) && p !in x.permissions
    ensures !HeldOnceOnto(x, s, ds)
  {
    hide Sound, HeldTwice, Stranding.SomeoneHolds;
    StoredIsHeld(x, ds);
  }

  // ---- the tables of the applications ----

  function RowsOf(s: Store, app: Name): map<Name, AppFunction> {
    map f | f in s.appFunctions && s.appFunctions[f].application == app :: s.appFunctions[f]
  }

  function PolicyRowsOf(s: Store, app: Name): map<Name, DataPolicy> {
    map p | p in s.dataPolicies && s.dataPolicies[p].application == app :: s.dataPolicies[p]
  }

  /** Two stores that match the same declaration agree on its application. */
  lemma MatchesAgree(s: Store, u: Store, d: ApplicationDecl)
    requires Matches(s, d) && Matches(u, d)
    ensures RowsOf(s, d.name) == RowsOf(u, d.name) && PolicyRowsOf(s, d.name) == PolicyRowsOf(u, d.name)
  {
    var fs, ps := d.body.functions, d.body.policies;
    forall x | x == s || x == u
      ensures RowsOf(x, d.name).Keys == Names(fs) && PolicyRowsOf(x, d.name).Keys == Names(ps)
    {
      assert forall f <- fs :: f.name in RowsOf(x, d.name);
      assert forall p <- ps :: p.name in PolicyRowsOf(x, d.name);
    }
  }

  lemma FunctionRowsAgree(x: Store, y: Store)
    requires forall f <- x.appFunctions :: x.appFunctions[f].application in x.applications
    requires forall app <- x.applications :: RowsOf(x, app) == RowsOf(y, app)
    ensures forall f <- x.appFunctions :: f in y.appFunctions && y.appFunctions[f] == x.appFunctions[f]
  {
    forall f <- x.appFunctions ensures f in y.appFunctions && y.appFunctions[f] == x.appFunctions[f] {
      var app := x.appFunctions[f].application;
      assert f in RowsOf(x, app) && f in RowsOf(y, app) && RowsOf(y, app)[f] == RowsOf(x, app)[f];
    }
  }

  lemma PolicyRowsAgree(x: Store, y: Store)
    requires forall p <- x.dataPolicies :: x.dataPolicies[p].application in x.applications
    requires forall app <- x.applications :: PolicyRowsOf(x, app) == PolicyRowsOf(y, app)
    ensures forall p <- x.dataPolicies :: p in y.dataPolicies && y.dataPolicies[p] == x.dataPolicies[p]
  {
    forall p <- x.dataPolicies ensures p in y.dataPolicies && y.dataPolicies[p] == x.dataPolicies[p] {
      var app := x.dataPolicies[p].application;
      assert p in PolicyRowsOf(x, app) && p in PolicyRowsOf(y, app);
      assert PolicyRowsOf(y, app)[p] == PolicyRowsOf(x, app)[p];
    }
  }

  /** Two stores that match the same declarations of all their applications have the same rows. */
  lemma AllMatchesAgree(s: Store, u: Store, ds: seq<ApplicationDecl>)
    requires WellFormed(s) && WellFormed(u) && s.applications == Names(ds) == u.applications
    requires forall d <- ds :: Matches(s, d) && Matches(u, d)
    ensures u.appFunctions == s.appFunctions && u.dataPolicies == s.dataPolicies
  {
    hide Matches, RowsOf, PolicyRowsOf;
    forall app <- Names(ds) ensures RowsOf(s, app) == RowsOf(u, app) && PolicyRowsOf(s, app) == PolicyRowsOf(u, app) {
      var d :| d in ds && d.name == app;
      MatchesAgree(s, u, d);
    }
    FunctionRowsAgree(s, u);
    FunctionRowsAgree(u, s);
    PolicyRowsAgree(s, u);
    PolicyRowsAgree(u, s);
  }

  lemma SamePermissions(s: Store, u: Store)
    requires Sound(s) && Sound(u) && u.appFunctions == s.appFunctions && RowsWithin(u, s)
    ensures u.permissions == s.permissions
  {
    assert u.permissions.Keys == Held(u.appFunctions) && s.permissions.Keys == Held(s.appFunctions);
  }

  /** What the resource servers leave: the applications of `s`, and of `b` what its names carry. */
  lemma ResourceServersRestored(b: Store, s: Store, ds: seq<ApplicationDecl>, u: Store)
    requires Sound(b) && Sound(s) && Within(b, s) && PoliciesExported(s)
    requires ListsApplications(s, ds) && AfterResourceServers(b, ds) == Ok(u)
    ensures Sound(u)
    ensures u.applications == s.applications && u.apiResources == RegisteredOnto(b, s).apiResources
    ensures u.appFunctions == s.appFunctions && u.permissions == s.permissions && u.dataPolicies == s.dataPolicies
    ensures u.roles == b.roles && u.users == b.users && u.teams == map[]
    ensures forall f <- u.functions :: u.functions[f].application.Some? && f in s.functions
                                       && s.functions[f].application == u.functions[f].application
  {
    hide AfterResourceServers, Sound, RowsWithin, Matches, ListsApplication;
    SoundIsWellFormed(s);
    ResourceServersKeepSound(b, ds, u);
    SoundIsWellFormed(u);
    ResourceServersFrame(b, ds, u);
    ExportsAcceptedIff(b, s, ds);
    forall d <- ds ensures Distinctly(d) && Matches(s, d) {
      ExportMatches(s, d);
    }
    ResourceServersApplied(b, ds, u);
    AllMatchesAgree(s, u, ds);
    SamePermissions(s, u);
    forall f <- u.functions
      ensures u.functions[f].application.Some? && f in s.functions
      ensures s.functions[f].application == u.functions[f].application
    {
      Stranding.ListKeepsHeld(b, ds, u, f, "");
    }
  }

  // ---- business functions ----

  /** Two stores in which the same list of live functions holds agree on these functions. */
  lemma HoldsAgree(s: Store, t: Store, app: Name, fs: FunctionList)
    requires app in s.applications && app in t.applications && s.appFunctions == t.appFunctions
    requires AllLive(fs) && Names(fs) == BusinessFunctionsOf(s, app)
    requires ApplicationHolds(s, app, fs) && ApplicationHolds(t, app, fs) && (fs != [] ==> HasAppFunctions(s, app))
    ensures forall f <- Names(fs) :: f in t.functions && t.functions[f] == s.functions[f]
    ensures fs != [] ==> forall f <- t.functions :: t.functions[f].application == Some(app) ==> f in Names(fs)
  {
    AllLiveIsLive(fs);
    SameAppFunctions(s, t, app);
    hide HasAppFunctions, Obtainable, Live;
    forall f <- Names(fs) ensures f in t.functions && t.functions[f] == s.functions[f] {
      var x :| x in fs && x.name == f;
      assert f in BusinessFunctionsOf(s, app);
    }
  }

  lemma ExportedIsAccepted(s: Store, b: Store, e: Entry<FunctionList>)
    requires FunctionsCovered(s) && FunctionsLive(s) && UsedOnce(s) && ListsFunctions(s, e.name, e.body)
    requires b.appFunctions == s.appFunctions
    ensures AllLive(e.body) && AfterApplication(b, e).Ok?
    ensures e.body != [] ==> HasAppFunctions(s, e.name)
  {
    forall f <- e.body ensures f.body.permissions != [] && Obtainable(s, e.name, f) {
      ExportedObtainable(s, e.name, e.body, f);
    }
    if e.body != [] {
      var f := e.body[0];
      assert f.body.permissions[0] in Elements(f.body.permissions);
      assert f.body.permissions[0] in HeldBy(s.appFunctions, e.name);
    }
    LiveIsPrefix(e.body);
    SameAppFunctions(s, b, e.name);
    ApplicationIff(b, e);
  }

  lemma {:induction false} ExportedAreAccepted(s: Store, b: Store, ds: seq<Entry<FunctionList>>)
    requires FunctionsCovered(s) && FunctionsLive(s) && UsedOnce(s)
    requires forall e <- ds :: ListsFunctions(s, e.name, e.body)
    requires b.appFunctions == s.appFunctions
    ensures AfterApplications(b, ds).Ok?
    decreases |ds|
  {
    if ds != [] {
      hide AfterApplication, FunctionsCovered, FunctionsLive, UsedOnce, ListsFunctions;
      ExportedIsAccepted(s, b, ds[0]);
      var t := AfterApplication(b, ds[0]).value;
      assert ListsFunctions(s, ds[0].name, ds[0].body);
      ListedFunctionsAreDistinct(s, ds[0]);
      ApplicationFrame(b, ds[0], t);
      ExportedAreAccepted(s, t, ds[1..]);
    }
  }

  lemma ListedFunctionsAreDistinct(s: Store, e: Entry<FunctionList>)
    requires ListsFunctions(s, e.name, e.body)
    ensures DistinctNames(e.body)
  {
  }

  lemma {:induction false} FunctionsAreDeclared(a: Store, ds: seq<Entry<FunctionList>>, t: Store)
    requires AfterApplications(a, ds) == Ok(t) && forall d <- ds :: DistinctNames(d.body)
    ensures forall f <- t.functions :: f in a.functions || exists d <- ds :: f in Names(d.body)
    ensures t.roles.Keys == a.roles.Keys
    decreases |ds|
  {
    if ds != [] {
      var u := AfterApplication(a, ds[0]).value;
      ApplicationFrame(a, ds[0], u);
      FunctionsAreDeclared(u, ds[1..], t);
      assert ds == [ds[0]] + ds[1..];
    }
  }

  /** Once the exported lists are applied, the business functions are those of the store. */
  lemma FunctionsRestored(s: Store, u: Store, d: DefaultConfiguration, a: Store)
    requires WellFormed(s) && FunctionsCovered(s) && FunctionsLive(s) && UsedOnce(s) && ListsDefaults(s, d)
    requires forall f <- s.functions :: s.functions[f].application.Some?
    requires forall f <- u.functions :: f in s.functions
    requires Sound(u) && u.appFunctions == s.appFunctions && u.applications == s.applications
    requires AfterApplications(u, d.applications) == Ok(a)
    ensures a.functions == s.functions
  {
    hide AfterApplications, FunctionsCovered, FunctionsLive, UsedOnce, Sound, WellFormed, ApplicationHolds;
    ExportIsSeparate(s, d);
    ApplicationsKeep(u, d.applications, a);
    ApplicationsApplied(u, d.applications, a);
    FunctionsAreDeclared(u, d.applications, a);
    hide Separate;
    forall f <- s.functions ensures f in a.functions && a.functions[f] == s.functions[f] {
      FunctionRestored(s, d, a, f);
    }
    forall f <- a.functions ensures f in s.functions {
      if f !in u.functions {
        var e :| e in d.applications && f in Names(e.body);
        assert ListsFunctions(s, e.name, e.body) && f in BusinessFunctionsOf(s, e.name);
      }
    }
  }

  lemma FunctionRestored(s: Store, d: DefaultConfiguration, a: Store, f: Name)
    requires WellFormed(s) && FunctionsCovered(s) && FunctionsLive(s) && UsedOnce(s) && ListsDefaults(s, d)
    requires f in s.functions && s.functions[f].application.Some?
    requires a.appFunctions == s.appFunctions && a.applications == s.applications
    requires forall e <- d.applications :: ApplicationHolds(a, e.name, e.body)
    ensures f in a.functions && a.functions[f] == s.functions[f]
  {
    hide ApplicationHolds, FunctionsCovered, FunctionsLive, UsedOnce;
    var app := s.functions[f].application.value;
    assert app in Names(d.applications);
    var e :| e in d.applications && e.name == app;
    assert ListsFunctions(s, app, e.body) && f in BusinessFunctionsOf(s, app);
    ExportedIsAccepted(s, s, e);
    ExportedFunctionsHold(s, app, e.body);
    HoldsAgree(s, a, app, e.body);
  }

  // ---- roles, users and teams ----

  lemma ExportedRolesAreSimpleBelow(s: Store, d: DefaultConfiguration)
    requires WellFormed(s) && OneLevel(RoleGraph(s)) && ListsDefaults(s, d)
    ensures RolesSection.ChildrenAreDeclaredSimple(d.roles) && forall r <- d.roles :: RoleHolds(s, r)
  {
    ExportedRolesHold(s, d);
    forall r <- d.roles, c <- r.body.roles ensures exists e <- d.roles :: e.name == c && e.body.roles == [] {
      assert RoleHolds(s, r) && c in Names(d.roles);
      var e :| e in d.roles && e.name == c;
      assert RoleHolds(s, e);
      NoElements(e.body.roles);
    }
  }

  lemma ReadyAsWell(s: Store, b: Store, ds: seq<Entry<RoleBody>>)
    requires b.functions == s.functions && forall d <- ds :: RoleHolds(s, d)
    ensures forall d <- ds :: RolesSection.Ready(b, d)
  {
    forall d <- ds ensures RolesSection.Ready(b, d) {
      assert RoleHolds(s, d);
    }
  }

  lemma {:induction false} SimpleAccepted(s: Store, ds: seq<Entry<RoleBody>>)
    requires forall d <- ds :: RolesSection.Ready(s, d) && d.body.roles == []
    ensures AfterRoleList(s, ds).Ok?
    decreases |ds|
  {
    if ds != [] {
      hide AfterRole;
      RolesSection.RoleIff(s, ds[0]);
      SimpleAccepted(AfterRole(s, ds[0]).value, ds[1..]);
    }
  }

  lemma {:induction false} CompoundAccepted(s: Store, ds: seq<Entry<RoleBody>>)
    requires forall d <- ds :: RolesSection.Ready(s, d) && RolesSection.ChildrenAreLeaves(s, d)
    requires forall d <- ds, c <- d.body.roles :: c !in Names(ds)
    ensures AfterRoleList(s, ds).Ok?
    decreases |ds|
  {
    if ds != [] {
      hide AfterRole;
      RolesSection.RoleIff(s, ds[0]);
      NamesSplit(ds);
      var u := AfterRole(s, ds[0]).value;
      forall d <- ds[1..] ensures RolesSection.Ready(u, d) && RolesSection.ChildrenAreLeaves(u, d) {
        assert d in ds && RolesSection.Ready(s, d) && RolesSection.ChildrenAreLeaves(s, d);
      }
      CompoundAccepted(u, ds[1..]);
    }
  }

  /** A section whose children are all declared as simple roles is accepted, whatever is stored. */
  lemma SimpleBelowIsAccepted(b: Store, ds: seq<Entry<RoleBody>>)
    requires DistinctNames(ds) && RolesSection.ChildrenAreDeclaredSimple(ds)
    requires forall d <- ds :: RolesSection.Ready(b, d)
    ensures AfterRoles(b, ds).Ok?
  {
    hide AfterRoleList, RolesWhere, RolesSection.Ready;
    var simple, compound := RolesWhere(false, ds), RolesWhere(true, ds);
    RolesSection.WhereElements(false, ds);
    RolesSection.WhereElements(true, ds);
    SimpleAccepted(b, simple);
    var u := AfterRoleList(b, simple).value;
    RoleListFrame(b, simple, u);
    RoleListRows(b, simple, u);
    SameNameSameEntry(ds);
    forall d <- compound
      ensures RolesSection.Ready(u, d) && RolesSection.ChildrenAreLeaves(u, d)
      ensures forall c <- d.body.roles :: c !in Names(compound)
    {
      ReadyWithMoreRoles(b, u, d);
      forall c <- d.body.roles ensures c in u.roles && u.roles[c].children == {} && c !in Names(compound) {
        var e :| e in ds && e.name == c && e.body.roles == [];
        assert e in simple && u.roles[c] == RoleRow(e);
      }
    }
    CompoundAccepted(u, compound);
  }

  lemma ReadyWithMoreRoles(b: Store, u: Store, d: Entry<RoleBody>)
    requires u == b.(roles := u.roles) && RolesSection.Ready(b, d)
    ensures RolesSection.Ready(u, d)
  {
  }

  lemma RestoreRoles(s: Store, b: Store, d: DefaultConfiguration)
    requires WellFormed(s) && OneLevel(RoleGraph(s)) && ListsDefaults(s, d)
    requires b.roles.Keys <= s.roles.Keys && b.functions == s.functions
    ensures AfterRoles(b, d.roles) == Ok(b.(roles := s.roles))
  {
    hide AfterRoles, OneLevel, WellFormed, RolesSection.ChildrenAreDeclaredSimple, RoleRow, RolesSection.Ready;
    hide ListsRole, RolesSection.NoCompoundChild;
    ExportedRolesAreSimpleBelow(s, d);
    ReadyAsWell(s, b, d.roles);
    SimpleBelowIsAccepted(b, d.roles);
    var t := AfterRoles(b, d.roles).value;
    DeclaredSimpleMeansNoCompoundChild(d.roles);
    RolesApplied(b, d.roles, t);
    SameRoles(s, t, d.roles);
  }

  lemma SameRoles(s: Store, t: Store, ds: seq<Entry<RoleBody>>)
    requires s.roles.Keys == Names(ds) && t.roles.Keys == Names(ds)
    requires forall d <- ds :: RoleHolds(s, d) && RoleHolds(t, d)
    ensures t.roles == s.roles
  {
    forall r <- t.roles ensures t.roles[r] == s.roles[r] {
      var d :| d in ds && d.name == r;
      assert RoleHolds(s, d) && RoleHolds(t, d);
    }
  }

  lemma {:induction false} UsersSucceed(s: Store, ds: seq<Entry<UserBody>>)
    requires Trimmed(ds) && forall d <- ds :: RolesExist(s, d)
    ensures AfterUsers(s, ds).Ok?
    decreases |ds|
  {
    if ds != [] {
      hide AfterUser;
      UserIff(s, ds[0]);
      var u := AfterUser(s, ds[0]).value;
      assert forall d <- ds[1..] :: RolesExist(u, d) <==> RolesExist(s, d);
      UsersSucceed(u, ds[1..]);
    }
  }

  lemma RolesExistAsWell(s: Store, b: Store, ds: seq<Entry<UserBody>>)
    requires b.roles == s.roles && forall d <- ds :: UserHolds(s, d)
    ensures forall d <- ds :: RolesExist(b, d)
  {
    forall d <- ds ensures RolesExist(b, d) {
      assert UserHolds(s, d);
    }
  }

  lemma RestoreUsers(s: Store, b: Store, d: DefaultConfiguration)
    requires WellFormed(s) && UsersTrimmed(s) && Carried(s) && ListsDefaults(s, d)
    requires b.users.Keys <= s.users.Keys && b.roles == s.roles
    ensures AfterUsers(b, d.users) == Ok(b.(users := s.users))
  {
    hide AfterUsers, Trimmed, ListsUser, ListsRole, ListsTeam, ListsFunctions, WellFormed, UserHolds;
    ExportedUsersHold(s, d);
    RolesExistAsWell(s, b, d.users);
    UsersSucceed(b, d.users);
    var t := AfterUsers(b, d.users).value;
    UsersFrame(b, d.users, t);
    UsersApplied(b, d.users, t);
    assert LiveUsers(s) == s.users.Keys;
    SameUsers(s, t, d.users);
  }

  lemma SameUsers(s: Store, t: Store, ds: seq<Entry<UserBody>>)
    requires s.users.Keys == Names(ds) && t.users.Keys == Names(ds)
    requires forall u <- ds :: UserHolds(s, u) && UserHolds(t, u)
    ensures t.users == s.users
  {
    forall u <- t.users ensures t.users[u] == s.users[u] {
      var e :| e in ds && e.name == u;
      assert UserHolds(s, e) && UserHolds(t, e);
    }
  }

  lemma ExportedTeamsAreSimpleBelow(s: Store, d: DefaultConfiguration)
    requires WellFormed(s) && TeamsDisjoint(s) && OneLevel(TeamGraph(s)) && ListsDefaults(s, d)
    ensures TeamsSection.ChildrenAreDeclaredSimple(d.teams) && forall t <- d.teams :: TeamHolds(s, t)
  {
    ExportedTeamsHold(s, d);
    forall t <- d.teams, c <- t.body.teams ensures exists e <- d.teams :: e.name == c && e.body.teams == [] {
      assert TeamHolds(s, t) && c in Names(d.teams);
      var e :| e in d.teams && e.name == c;
      assert TeamHolds(s, e);
      NoElements(e.body.teams);
    }
  }

  lemma RestoreTeams(s: Store, b: Store, d: DefaultConfiguration)
    requires WellFormed(s) && TeamsDisjoint(s) && OneLevel(TeamGraph(s)) && ListsDefaults(s, d)
    requires b.teams == map[] && b.users == s.users && b.dataPolicies == s.dataPolicies
    ensures AfterTeams(b, d.teams) == Ok(b.(teams := s.teams))
  {
    hide AfterTeams, OneLevel, WellFormed, TeamsSection.ChildrenAreDeclaredSimple, TeamRow, TeamsSection.Ready;
    hide ListsTeam;
    ExportedTeamsAreSimpleBelow(s, d);
    TeamsReadyAsWell(s, b, d.teams);
    TeamsSection.SectionOnEmpty(b, d.teams);
    SameTeams(s, AfterTeams(b, d.teams).value, d.teams);
  }

  lemma TeamsReadyAsWell(s: Store, b: Store, ds: seq<Entry<TeamBody>>)
    requires b.users == s.users && b.dataPolicies == s.dataPolicies && forall d <- ds :: TeamHolds(s, d)
    ensures forall d <- ds :: TeamsSection.Ready(b, d)
  {
    forall d <- ds ensures TeamsSection.Ready(b, d) {
      assert TeamHolds(s, d);
    }
  }

  lemma SameTeams(s: Store, t: Store, ds: seq<Entry<TeamBody>>)
    requires s.teams.Keys == Names(ds) && t.teams.Keys == Names(ds)
    requires forall d <- ds :: TeamHolds(s, d) && t.teams[d.name] == TeamRow(d)
    ensures t.teams == s.teams
  {
    forall x <- t.teams ensures t.teams[x] == s.teams[x] {
      var d :| d in ds && d.name == x;
      assert TeamHolds(s, d);
    }
  }

  // ---- sufficient ----

  lemma PeopleRestored(s: Store, a: Store, d: DefaultConfiguration, t: Store)
    requires Sound(s) && UsersTrimmed(s) && Flat(s) && Carried(s) && ListsDefaults(s, d)
    requires a.roles.Keys <= s.roles.Keys && a.users.Keys <= s.users.Keys && a.teams == map[]
    requires a.functions == s.functions && a.dataPolicies == s.dataPolicies
    requires t == a.(roles := s.roles, users := s.users, teams := s.teams)
    ensures AfterRoles(a, d.roles).Ok?
    ensures AfterUsers(AfterRoles(a, d.roles).value, d.users).Ok?
    ensures AfterTeams(AfterUsers(AfterRoles(a, d.roles).value, d.users).value, d.teams) == Ok(t)
  {
    hide AfterRoles, AfterUsers, AfterTeams, OneLevel, ListsDefaults, UsersTrimmed, WellFormed, Carried;
    SoundIsWellFormed(s);
    RestoreRoles(s, a, d);
    RestoreUsers(s, a.(roles := s.roles), d);
    RestoreTeams(s, a.(roles := s.roles, users := s.users), d);
  }

  /** A store is rebuilt onto a part of it by the contract exported from it. */
  lemma Restored(b: Store, s: Store, c: Contract)
    requires Sound(b) && Sound(s) && UsersTrimmed(s) && IsExport(s, c) && Within(b, s)
    requires Reappliable(s) && Carried(s) && HeldOnceOnto(b, s, c.applications)
    ensures AfterContract(b, c) == Ok(RegisteredOnto(b, s))
  {
    hide AfterResourceServers, AfterApplications, AfterRoles, AfterUsers, AfterTeams, Sound, UsersTrimmed, OneLevel;
    hide FunctionsCovered, FunctionsLive, UsedOnce, PoliciesExported, HeldOnceOnto, RowsWithin;
    var d := c.defaults[0];
    ExportsAcceptedIff(b, s, c.applications);
    var u := AfterResourceServers(b, c.applications).value;
    ResourceServersRestored(b, s, c.applications, u);
    SoundIsWellFormed(s);
    ExportedAreAccepted(s, u, d.applications);
    var a := AfterApplications(u, d.applications).value;
    ApplicationsKeep(u, d.applications, a);
    RolesKept(u, d.applications, a);
    FunctionsRestored(s, u, d, a);
    PeopleRestored(s, a, d, RegisteredOnto(b, s));
    SingleSection(u, c.defaults);
  }

  lemma {:induction false} RolesKept(u: Store, ds: seq<Entry<FunctionList>>, a: Store)
    requires AfterApplications(u, ds) == Ok(a) && forall d <- ds :: DistinctNames(d.body)
    ensures a.roles.Keys == u.roles.Keys
    decreases |ds|
  {
    if ds != [] {
      hide AfterApplication;
      var t := AfterApplication(u, ds[0]).value;
      ApplicationFrame(u, ds[0], t);
      RolesKept(t, ds[1..], a);
    }
  }

  // ---- and every condition is needed ----

  lemma FunctionListsAreComplete(s: Store, u: Store, d: DefaultConfiguration, a: Store)
    requires WellFormed(s) && Sound(u) && ListsDefaults(s, d)
    requires forall f <- u.functions :: f in s.functions && s.functions[f].application.Some?
    requires AfterApplications(u, d.applications) == Ok(a)
    requires a.functions == s.functions && a.applications == s.applications && a.appFunctions == s.appFunctions
    ensures FunctionsLive(s) && FunctionsCovered(s) && UsedOnce(s)
    ensures forall f <- s.functions :: s.functions[f].application.Some?
  {
    hide AfterApplications;
    ExportIsSeparate(s, d);
    ApplicationsApplied(u, d.applications, a);
    LivenessIsNeeded(s, d, a);
    FunctionsAreDeclared(u, d.applications, a);
    forall f <- s.functions ensures s.functions[f].application.Some? {
      if f !in u.functions {
        var e :| e in d.applications && f in Names(e.body);
        assert ListsFunctions(s, e.name, e.body) && f in BusinessFunctionsOf(s, e.name);
      }
    }
  }

  /** `t` has the tables of `s`. */
  predicate SameTables(t: Store, s: Store) {
    t == s.(apiResources := t.apiResources)
  }

  lemma DefaultsAreComplete(s: Store, u: Store, d: DefaultConfiguration, t: Store)
    requires Sound(s) && UsersTrimmed(s) && ListsDefaults(s, d) && Sound(u) && AfterDefaults(u, d) == Ok(t)
    requires SameTables(t, s) && u.users.Keys <= LiveUsers(s)
    requires forall f <- u.functions :: f in s.functions && s.functions[f].application.Some?
    ensures FunctionsLive(s) && FunctionsCovered(s) && UsedOnce(s) && Carried(s)
    ensures u.roles == map[] && u.teams == map[] ==> Flat(s)
  {
    hide AfterApplications, AfterRoles, AfterUsers, AfterTeams, OneLevel, FunctionsLive, FunctionsCovered, UsedOnce;
    hide Sound, WellFormed, UserHolds, Separate;
    SoundIsWellFormed(s);
    var a := AfterApplications(u, d.applications).value;
    ApplicationsKeep(u, d.applications, a);
    ExportIsSeparate(s, d);
    RolesKept(u, d.applications, a);
    var r := AfterRoles(a, d.roles).value;
    RolesKeepSound(a, d.roles, r);
    var x := AfterUsers(r, d.users).value;
    ExportedUsersHold(s, d);
    UsersFrame(r, d.users, x);
    TeamsFrame(x, d.teams, t);
    FunctionListsAreComplete(s, u, d, a);
    assert s.users.Keys == LiveUsers(s);
    if u.roles == map[] && u.teams == map[] {
      LevelsAreComplete(s, a, d, r, x, t);
    }
  }

  lemma LevelsAreComplete(s: Store, a: Store, d: DefaultConfiguration, r: Store, x: Store, t: Store)
    requires ListsDefaults(s, d) && a.roles.Keys == {} && x.teams == map[]
    requires AfterRoles(a, d.roles) == Ok(r) && r.roles == s.roles
    requires AfterTeams(x, d.teams) == Ok(t) && t.teams == s.teams
    ensures Flat(s)
  {
    hide AfterRoles, AfterTeams, OneLevel;
    assert a.roles == map[];
    RolesSection.SectionOnEmpty(a, d.roles);
    assert RoleGraph(s) == RoleGraph(r);
    TeamsSection.SectionOnEmpty(x, d.teams);
    assert TeamGraph(s) == TeamGraph(t);
  }

  lemma {:induction false} FunctionsStay(b: Store, ds: seq<ApplicationDecl>, u: Store)
    requires Sound(b) && AfterResourceServers(b, ds) == Ok(u)
    ensures u.functions.Keys == b.functions.Keys
    decreases |ds|
  {
    if ds != [] {
      hide AfterApply, Sound;
      var t := AfterApply(b, ds[0]).value;
      ApplyKeepsSound(b, ds[0], t);
      FunctionsAfterApply(b, ds[0], t);
      FunctionsStay(t, ds[1..], u);
    }
  }

  lemma RestoredIsComplete(b: Store, s: Store, c: Contract, t: Store)
    requires Sound(b) && Sound(s) && UsersTrimmed(s) && IsExport(s, c) && Within(b, s)
    requires AfterContract(b, c) == Ok(t) && SameTables(t, s)
    ensures PoliciesExported(s) && FunctionsLive(s) && FunctionsCovered(s) && UsedOnce(s) && Carried(s)
    ensures HeldOnceOnto(b, s, c.applications)
    ensures b.roles == map[] ==> Flat(s)
  {
    hide AfterResourceServers, AfterDefaults, Sound, FunctionsLive, FunctionsCovered, UsedOnce, OneLevel;
    hide HeldOnceOnto, RowsWithin, UsersTrimmed, Carried;
    var d, u := c.defaults[0], AfterResourceServers(b, c.applications).value;
    SoundIsWellFormed(s);
    SingleSection(u, c.defaults);
    ResourceServersKeepSound(b, c.applications, u);
    ResourceServersFrame(b, c.applications, u);
    FunctionsStay(b, c.applications, u);
    ExportsAcceptedIff(b, s, c.applications);
    DefaultsKeep(u, d, t);
    forall e <- c.applications ensures Distinctly(e) {
      ExportIsDistinct(s, e);
    }
    ResourceServersApplied(b, c.applications, u);
    PoliciesAreNeeded(s, c.applications, u);
    assert u.teams.Keys == {} && u.teams == map[];
    DefaultsAreComplete(s, u, d, t);
  }

  /** Restore onto a part of the store: the exported contract rebuilds a store whose graphs have one
      level exactly when it can be reapplied, everything in it is carried by the contract, and what an
      application holds twice is held by any application when its turn comes. */
  lemma RestoreOntoIff(b: Store, s: Store, c: Contract)
    requires Sound(b) && Sound(s) && UsersTrimmed(s) && IsExport(s, c) && Within(b, s) && Flat(s)
    ensures AfterContract(b, c) == Ok(RegisteredOnto(b, s)) <==>
              Reappliable(s) && Carried(s) && HeldOnceOnto(b, s, c.applications)
  {
    hide AfterContract, Carried, HeldOnceOnto, IsExport, Sound, UsersTrimmed, Within, OneLevel;
    hide PoliciesExported, FunctionsLive, FunctionsCovered, UsedOnce;
    if Reappliable(s) && Carried(s) && HeldOnceOnto(b, s, c.applications) {
      Restored(b, s, c);
    }
    if AfterContract(b, c) == Ok(RegisteredOnto(b, s)) {
      RestoredIsComplete(b, s, c, RegisteredOnto(b, s));
    }
  }

  lemma EmptyIsWithin(s: Store)
    ensures Within(EMPTY, s) && RegisteredOnto(EMPTY, s) == Registered(s) && Sound(EMPTY)
  {
    EmptyIsSound();
  }

  /** Restore: the same for the empty store, where one level is one more condition. */
  lemma RestoreIff(s: Store, c: Contract)
    requires Sound(s) && UsersTrimmed(s) && IsExport(s, c)
    ensures AfterContract(EMPTY, c) == Ok(Registered(s)) <==>
              Reappliable(s) && Carried(s) && HeldOnceOnto(EMPTY, s, c.applications)
  {
    hide AfterContract, Carried, HeldOnceOnto, IsExport, Sound, Registered, RegisteredOnto, UsersTrimmed, Within;
    hide OneLevel, PoliciesExported, FunctionsLive, FunctionsCovered, UsedOnce;
    EmptyIsWithin(s);
    if Flat(s) {
      RestoreOntoIff(EMPTY, s, c);
    } else if AfterContract(EMPTY, c) == Ok(Registered(s)) {
      RegisteredHasTables(s);
      RestoredIsComplete(EMPTY, s, c, Registered(s));
    }
  }

  lemma RegisteredHasTables(s: Store)
    ensures SameTables(Registered(s), s)
  {
  }

  // ---- the order of the applications ----

  lemma ExportDeclares(s: Store, d: ApplicationDecl)
    requires WellFormed(s) && ListsApplication(s, d) && d.name in s.applications && PoliciesExported(s)
    ensures DeclaredPermissions(d.body) == HeldBy(s.appFunctions, d.name)
  {
    ExportMatches(s, d);
    ExportEnds(s, d);
    EndHolds(s, d);
  }

  lemma ExportEnds(s: Store, d: ApplicationDecl)
    requires DistinctNames(d.body.functions) && FunctionsMatch(s, d.name, d.body.functions)
    ensures FunctionsEnd(s, d.name, d.body.functions)
  {
    forall f <- Names(d.body.functions)
      ensures f in s.appFunctions
      ensures var body := Final(d.body.functions, f);
              s.appFunctions[f] == AppFunction(d.name, body.description, Names(body.permissions))
    {
      var i :| 0 <= i < |d.body.functions| && d.body.functions[i].name == f;
      FinalOfDistinct(d.body.functions, i);
    }
  }

  /** Where no permission is shared between applications, the order does not matter. */
  lemma UnsharedOrderIsImmaterial(s: Store, ds: seq<ApplicationDecl>)
    requires WellFormed(s) && Unshared(s) && PoliciesExported(s) && ListsApplications(s, ds)
    ensures HeldOnceOnto(EMPTY, s, ds) <==> forall app <- Names(ds), p :: !HeldTwice(s.appFunctions, app, p)
  {
    hide HeldTwice, WellFormed, Unshared, PoliciesExported;
    if HeldOnceOnto(EMPTY, s, ds) {
      forall app <- Names(ds), p ensures !HeldTwice(s.appFunctions, app, p) {
        var j :| 0 <= j < |ds| && ds[j].name == app;
        if HeldTwice(s.appFunctions, app, p) {
          assert HeldTwice(s.appFunctions, ds[j].name, p);
          NobodyBefore(s, ds, j, p);
        }
      }
    }
    if forall app <- Names(ds), p :: !HeldTwice(s.appFunctions, app, p) {
      assert forall j :: 0 <= j < |ds| ==> ds[j].name in Names(ds);
    }
  }

  lemma NobodyBefore(s: Store, ds: seq<ApplicationDecl>, j: nat, p: Name)
    requires WellFormed(s) && Unshared(s) && PoliciesExported(s) && ListsApplications(s, ds)
    requires j < |ds| && HeldTwice(s.appFunctions, ds[j].name, p)
    ensures !Stranding.SomeoneHolds(EMPTY, ds[..j], p)
  {
    hide ListsApplication, PoliciesExported, WellFormed;
    forall app ensures p !in Stranding.HoldsAfter(EMPTY, ds[..j], app) {
      if app in Names(ds[..j]) {
        var i :| 0 <= i < j && ds[..j][i].name == app;
        FinalOfDistinct(ds[..j], i);
        assert ds[i] in ds && ds[i].name in Names(ds);
        ExportDeclares(s, ds[i]);
        assert ds[i].name != ds[j].name;
      }
    }
  }
}
