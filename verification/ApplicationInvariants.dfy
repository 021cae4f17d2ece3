/** When an application declaration is accepted, and what applying it preserves. */
module ApplicationInvariants {
  import opened Results
  import opened Entries
  import opened Model
  import opened Invariants
  import opened SecurityContractApplication
  import opened ApplicationConvergence

  // ---- acceptance ----

  /** Row `i` of declared function `a` and row `j` of `b` name the same permission, and are rows of one
      function or the permission is new. */
  predicate DeclaredTwice(s: Store, fs: seq<Entry<AppFunctionBody>>, a: int, i: int, b: int, j: int) {
    && 0 <= a < |fs| && 0 <= i < |fs[a].body.permissions|
    && 0 <= b < |fs| && 0 <= j < |fs[b].body.permissions|
    && fs[a].body.permissions[i].name == fs[b].body.permissions[j].name
    && (a == b || fs[a].body.permissions[i].name !in s.permissions)
  }

  /** A permission is named once in a function, and a new one once in all, except that repeating it under
      a function that is already stored is harmless: only rows in memory are looked up, and only when
      editing. */
  ghost predicate NamedOnce(s: Store, fs: seq<Entry<AppFunctionBody>>) {
    forall a, i, b, j {:trigger DeclaredTwice(s, fs, a, i, b, j)} ::
      DeclaredTwice(s, fs, a, i, b, j) ==> a == b && (i == j || fs[a].name in s.appFunctions)
  }

  predicate Owns(s: Store, d: ApplicationDecl) {
    && (forall f <- Names(d.body.functions) :: f in s.appFunctions ==> s.appFunctions[f].application == d.name)
    && (forall p <- Names(d.body.policies) :: p in s.dataPolicies ==> s.dataPolicies[p].application == d.name)
  }

  /** What a declared function adds in memory, at the level of names. */
  lemma AddedNames(s: Store, app: Name, fs: seq<Entry<AppFunctionBody>>, a: nat, p: Name)
    requires WellFormed(s) && DistinctNames(fs) && a < |fs|
    ensures var m := Synchronised(Load(s, app), fs);
            && fs[a].name in m
            && (p !in s.permissions ==> (p in Names(m[fs[a].name].added) <==> p in Names(fs[a].body.permissions)))
            && (fs[a].name in Load(s, app) ==> DistinctNames(m[fs[a].name].added))
            && (fs[a].name !in Load(s, app) ==> m[fs[a].name].added == fs[a].body.permissions)
  {
    SynchronisedAt(Load(s, app), fs);
    assert fs[a].name in Names(fs);
    if fs[a].name in Load(s, app) {
      EditedAdds(Load(s, app)[fs[a].name], fs[a].body);
    }
  }

  /** Only declared functions have rows added in memory. */
  lemma AddedIsDeclared(s: Store, app: Name, fs: seq<Entry<AppFunctionBody>>, f: Name) returns (a: nat)
    requires var m := Synchronised(Load(s, app), fs); f in m && m[f].added != []
    ensures a < |fs| && fs[a].name == f
  {
    SynchronisedAt(Load(s, app), fs);
    assert f in Names(fs);
    a :| 0 <= a < |fs| && fs[a].name == f;
  }

  lemma ClashIsDeclared(s: Store, app: Name, fs: seq<Entry<AppFunctionBody>>)
    requires WellFormed(s) && DistinctNames(fs) && Clash(s.permissions.Keys, Synchronised(Load(s, app), fs))
    requires forall f <- Names(fs) :: f in s.appFunctions ==> s.appFunctions[f].application == app
    ensures !NamedOnce(s, fs)
  {
    var m := Synchronised(Load(s, app), fs);
    var f, i, g, j :|
      f in m && 0 <= i < |m[f].added| && g in m && 0 <= j < |m[g].added| && SameRow(s.permissions.Keys, m, f, i, g, j);
    var a := AddedIsDeclared(s, app, fs, f);
    var b := AddedIsDeclared(s, app, fs, g);
    var p := m[f].added[i].name;
    assert p in Names(m[f].added) && p in Names(m[g].added);
    AddedNames(s, app, fs, a, p);
    AddedNames(s, app, fs, b, p);
    if f != g {
      var k :| 0 <= k < |fs[a].body.permissions| && fs[a].body.permissions[k].name == p;
      var l :| 0 <= l < |fs[b].body.permissions| && fs[b].body.permissions[l].name == p;
      assert DeclaredTwice(s, fs, a, k, b, l);
    } else {
      assert a == b;
      assert DeclaredTwice(s, fs, a, i, a, j);
    }
  }

  lemma DeclaredTwiceClashes(s: Store, app: Name, fs: seq<Entry<AppFunctionBody>>)
    requires WellFormed(s) && DistinctNames(fs) && !NamedOnce(s, fs)
    ensures Clash(s.permissions.Keys, Synchronised(Load(s, app), fs))
  {
    var m := Synchronised(Load(s, app), fs);
    var a, i, b, j :| DeclaredTwice(s, fs, a, i, b, j) && !(a == b && (i == j || fs[a].name in s.appFunctions));
    var p := fs[a].body.permissions[i].name;
    AddedNames(s, app, fs, a, p);
    AddedNames(s, app, fs, b, p);
    if a != b {
      assert fs[a].name != fs[b].name;
      var k :| 0 <= k < |m[fs[a].name].added| && m[fs[a].name].added[k].name == p;
      var l :| 0 <= l < |m[fs[b].name].added| && m[fs[b].name].added[l].name == p;
      assert SameRow(s.permissions.Keys, m, fs[a].name, k, fs[b].name, l);
    } else {
      assert SameRow(s.permissions.Keys, m, fs[a].name, i, fs[a].name, j);
    }
  }

  lemma SaveAcceptedIff(s: Store, app: Name, fs: seq<Entry<AppFunctionBody>>)
    requires WellFormed(s) && DistinctNames(fs)
    ensures var m := Synchronised(Load(s, app), fs);
            NameTaken(s, app, m.Keys) || Clash(s.permissions.Keys, m) <==>
              NameTaken(s, app, Names(fs)) || !NamedOnce(s, fs)
  {
    var m := Synchronised(Load(s, app), fs);
    SynchronisedAt(Load(s, app), fs);
    assert NameTaken(s, app, m.Keys) <==> NameTaken(s, app, Names(fs));
    if !NameTaken(s, app, Names(fs)) {
      if Clash(s.permissions.Keys, m) {
        ClashIsDeclared(s, app, fs);
      } else if !NamedOnce(s, fs) {
        DeclaredTwiceClashes(s, app, fs);
      }
    }
  }

  lemma PoliciesAcceptedIff(s: Store, t: Store, d: ApplicationDecl)
    requires t.dataPolicies == s.dataPolicies
    ensures PoliciesSynchronised(t, d.name, d.body.policies).Ok? <==>
              forall p <- Names(d.body.policies) :: p in s.dataPolicies ==> s.dataPolicies[p].application == d.name
  {
    PoliciesConverge(t, d.name, d.body.policies);
  }

  lemma UpdateAcceptedIff(s: Store, d: ApplicationDecl)
    requires WellFormed(s) && DistinctNames(d.body.functions)
    ensures AfterUpdate(s, d).Ok? <==> Owns(s, d) && NamedOnce(s, d.body.functions)
  {
    hide Synchronised, NamedOnce, Clash, Load;
    var m := Synchronised(Load(s, d.name), d.body.functions);
    SaveAcceptedIff(s, d.name, d.body.functions);
    if Saved(s, d.name, m).Ok? {
      var t := Saved(s, d.name, m).value;
      SavedRows(s, d.name, m, t);
      PoliciesAcceptedIff(s, WithoutOrphans(WithoutUndeclared(t, d.name, Names(d.body.functions))), d);
    }
  }

  lemma CreateAcceptedIff(s: Store, d: ApplicationDecl)
    requires WellFormed(s) && DistinctNames(d.body.functions) && d.name !in s.applications
    ensures AfterCreate(s, d).Ok? <==> Owns(s, d) && NamedOnce(s, d.body.functions)
  {
    hide Load, Synchronised, NamedOnce, Clash, Rows, NewPermissions;
    var r := s.(apiResources := s.apiResources + {d.name});
    NothingLoaded(s, d.name);
    var m := Synchronised(map[], d.body.functions);
    SaveAcceptedIff(s, d.name, d.body.functions);
    if Saved(r, d.name, m).Ok? {
      var t := Saved(r, d.name, m).value;
      SavedRows(r, d.name, m, t);
      PoliciesAcceptedIff(s, t, d);
    }
  }

  /** A declaration is accepted exactly when it names no other application's functions or policies
      and names every new permission once. */
  lemma AcceptedIff(s: Store, d: ApplicationDecl)
    requires WellFormed(s) && DistinctNames(d.body.functions)
    ensures AfterApply(s, d).Ok? <==> Owns(s, d) && NamedOnce(s, d.body.functions)
  {
    if d.name in s.applications {
      UpdateAcceptedIff(s, d);
    } else {
      CreateAcceptedIff(s, d);
    }
  }

  /** Whatever is refused meets a unique constraint; a new application may not repeat a function's name. */
  lemma RefusedIsConflict(s: Store, d: ApplicationDecl)
    ensures AfterApply(s, d).Err? ==> AfterApply(s, d) == Err(Conflict(d.name))
    ensures d.name !in s.applications && !DistinctNames(d.body.functions) ==> AfterApply(s, d).Err?
  {
    hide Synchronised, Load, Clash, NameTaken;
  }

  // ---- what every application of a declaration keeps ----

  lemma NewPermissionsCover(stored: set<Name>, m: map<Name, Tracked>)
    requires !Clash(stored, m)
    ensures forall f <- m :: m[f].kept <= stored ==> m[f].Permissions() <= stored + NewPermissions(stored, m).Keys
    ensures forall p <- NewPermissions(stored, m) :: p !in stored && exists f <- m :: p in m[f].Permissions()
  {
    var added := NewPermissions(stored, m);
    forall p <- added ensures p !in stored && exists f <- m :: p in m[f].Permissions() {
      var f, i :| f in m && 0 <= i < |m[f].added| && m[f].added[i].name == p && p !in stored;
      assert p in Names(m[f].added);
    }
  }

  lemma SaveKeepsWellFormed(s: Store, app: Name, m: map<Name, Tracked>, added: map<Name, Text>, t: Store)
    requires WellFormed(s)
    requires t == s.(applications := s.applications + {app}, permissions := s.permissions + added,
                     appFunctions := s.appFunctions + Rows(app, m))
    requires forall f <- m :: m[f].Permissions() <= s.permissions.Keys + added.Keys
    ensures WellFormed(t)
  {
    assert forall f <- Rows(app, m) ::
        Rows(app, m)[f].application == app && Rows(app, m)[f].permissions <= t.permissions.Keys;
  }

  /** When no row is replaced, every permission is still held. */
  lemma SaveKeepsHeld(s: Store, app: Name, m: map<Name, Tracked>, added: map<Name, Text>, t: Store)
    requires m.Keys !! s.appFunctions.Keys && PermissionsHeld(s)
    requires t.permissions == s.permissions + added && t.appFunctions == s.appFunctions + Rows(app, m)
    requires forall p <- added :: exists f <- m :: p in m[f].Permissions()
    ensures PermissionsHeld(t)
  {
    forall p <- t.permissions ensures p in Held(t.appFunctions) {
      if p in added {
        var f :| f in m && p in m[f].Permissions();
        assert p in t.appFunctions[f].permissions;
      } else {
        assert p in Held(s.appFunctions);
        var f :| f in s.appFunctions && p in s.appFunctions[f].permissions;
        assert t.appFunctions[f] == s.appFunctions[f];
      }
    }
  }

  /** The store after the application functions are saved and, for a stored application, the
      undeclared ones and the orphaned permissions deleted. */
  lemma SaveKeepsSound(s: Store, app: Name, m: map<Name, Tracked>, t: Store)
    requires Sound(s) && Saved(s, app, m) == Ok(t)
    requires forall f <- m :: m[f].kept <= s.permissions.Keys
    ensures WellFormed(t) && RoleGraph(t) == RoleGraph(s) && TeamGraph(t) == TeamGraph(s)
    ensures m.Keys !! s.appFunctions.Keys ==> PermissionsHeld(t)
  {
    hide Saved, Clash, Rows, NewPermissions, WellFormed, PermissionsHeld, Acyclic;
    SoundIsWellFormed(s);
    SavedRows(s, app, m, t);
    SavedPermissions(s, app, m, t);
    NewPermissionsCover(s.permissions.Keys, m);
    var added := NewPermissions(s.permissions.Keys, m);
    SaveKeepsWellFormed(s, app, m, added, t);
    if m.Keys !! s.appFunctions.Keys {
      SaveKeepsHeld(s, app, m, added, t);
    }
  }

  lemma PoliciesKeepSound(s: Store, app: Name, ps: seq<Entry<Text>>, t: Store)
    requires Sound(s) && app in s.applications && PoliciesSynchronised(s, app, ps) == Ok(t)
    ensures Sound(t)
  {
    var u := WithoutPolicies(s, set p | p in s.dataPolicies && PolicyGone(s, app, Names(ps), p));
    PutPoliciesAt(u.dataPolicies, app, ps);
    hide PutPolicies, Final;
    assert RoleGraph(t) == RoleGraph(s) && TeamGraph(t) == TeamGraph(s);
  }

  lemma OrphanDeletionHolds(s: Store)
    requires WellFormed(s)
    ensures WellFormed(WithoutOrphans(s)) && PermissionsHeld(WithoutOrphans(s))
  {
    var t := WithoutOrphans(s);
    forall f <- t.appFunctions ensures t.appFunctions[f].permissions <= t.permissions.Keys {
      assert t.appFunctions[f].permissions <= Held(s.appFunctions);
    }
  }

  lemma KeptIsWellFormed(t: Store, app: Name, declared: set<Name>)
    requires WellFormed(t)
    ensures var kept := WithoutUndeclared(t, app, declared);
            WellFormed(kept) && RoleGraph(kept) == RoleGraph(t) && kept.teams == t.teams
  {
  }

  lemma OrphansLeaveGraphs(s: Store)
    ensures WithoutOrphans(s).roles == s.roles && WithoutOrphans(s).teams == s.teams
    ensures WithoutOrphans(s).applications == s.applications
  {
  }

  lemma UpdateKeepsSound(s: Store, d: ApplicationDecl, t: Store, u: Store)
    requires Sound(s) && Saved(s, d.name, Synchronised(Load(s, d.name), d.body.functions)) == Ok(t)
    requires var w := WithoutOrphans(WithoutUndeclared(t, d.name, Names(d.body.functions)));
             PoliciesSynchronised(w, d.name, d.body.policies) == Ok(u)
    ensures Sound(u)
  {
    hide Saved, Synchronised, PoliciesSynchronised, WellFormed, PermissionsHeld, WithoutOrphans;
    var m := Synchronised(Load(s, d.name), d.body.functions);
    SoundIsWellFormed(s);
    LoadedAreStored(s, d.name);
    SynchronisedKeepsStored(Load(s, d.name), d.body.functions, s.permissions.Keys);
    SaveKeepsSound(s, d.name, m, t);
    SavedRows(s, d.name, m, t);
    var kept := WithoutUndeclared(t, d.name, Names(d.body.functions));
    KeptIsWellFormed(t, d.name, Names(d.body.functions));
    OrphanDeletionHolds(kept);
    OrphansLeaveGraphs(kept);
    var v := WithoutOrphans(kept);
    assert RoleGraph(v) == RoleGraph(s) && TeamGraph(v) == TeamGraph(s);
    PoliciesKeepSound(v, d.name, d.body.policies, u);
  }

  lemma LoadedAreStored(s: Store, app: Name)
    requires WellFormed(s)
    ensures forall f <- Load(s, app) :: Load(s, app)[f].kept <= s.permissions.Keys
  {
  }

  lemma CreateKeepsSound(s: Store, d: ApplicationDecl, t: Store, u: Store)
    requires Sound(s) && Load(s, d.name) == map[]
    requires Saved(s, d.name, Synchronised(map[], d.body.functions)) == Ok(t)
    requires PoliciesSynchronised(t, d.name, d.body.policies) == Ok(u)
    ensures Sound(u)
  {
    hide Saved, Synchronised, PoliciesSynchronised, WellFormed, PermissionsHeld;
    var m := Synchronised(map[], d.body.functions);
    SynchronisedKeepsStored(map[], d.body.functions, s.permissions.Keys);
    SavedRows(s, d.name, m, t);
    assert forall f <- s.appFunctions :: s.appFunctions[f].application == d.name ==> f in Load(s, d.name);
    assert m.Keys !! s.appFunctions.Keys;
    SaveKeepsSound(s, d.name, m, t);
    PoliciesKeepSound(t, d.name, d.body.policies, u);
  }

  lemma ResourceKeepsSound(s: Store, app: Name)
    requires Sound(s)
    ensures Sound(s.(apiResources := s.apiResources + {app}))
  {
    var r := s.(apiResources := s.apiResources + {app});
    assert RoleGraph(r) == RoleGraph(s) && TeamGraph(r) == TeamGraph(s);
  }

  /** Every stored permission stays held, through synchronisation and orphan deletion. */
  lemma ApplyKeepsSound(s: Store, d: ApplicationDecl, u: Store)
    requires Sound(s) && AfterApply(s, d) == Ok(u)
    ensures Sound(u)
  {
    if d.name in s.applications {
      UpdateKeepsSound(s, d, Saved(s, d.name, Synchronised(Load(s, d.name), d.body.functions)).value, u);
    } else {
      var r := s.(apiResources := s.apiResources + {d.name});
      ResourceKeepsSound(s, d.name);
      NothingLoaded(r, d.name);
      CreateKeepsSound(r, d, Saved(r, d.name, Synchronised(map[], d.body.functions)).value, u);
    }
  }

  // ---- business functions and the permissions of their application ----

  /** Of several functions under one name the last one counts. */
  function DeclaredPermissions(body: ApplicationBody): set<Name> {
    set f, p | f in Names(body.functions) && p in Names(Final(body.functions, f).permissions) :: p
  }

  predicate HeldByAnother(s: Store, app: Name, p: Name) {
    exists g <- s.appFunctions :: s.appFunctions[g].application != app && p in s.appFunctions[g].permissions
  }

  /** The declaration drops a permission that a business function of the application uses and
      another application still holds. */
  predicate Strands(s: Store, d: ApplicationDecl) {
    exists f <- s.functions, p <- s.functions[f].permissions ::
      s.functions[f].application == Some(d.name) && p !in DeclaredPermissions(d.body) && HeldByAnother(s, d.name, p)
  }

  lemma EndHolds(u: Store, d: ApplicationDecl)
    requires FunctionsEnd(u, d.name, d.body.functions)
    ensures HeldBy(u.appFunctions, d.name) == DeclaredPermissions(d.body)
  {
  }

  lemma OthersHold(s: Store, u: Store, app: Name)
    requires OthersUntouched(s, u, app)
    ensures forall a :: a != app ==> HeldBy(u.appFunctions, a) == HeldBy(s.appFunctions, a)
    ensures forall p :: HeldByAnother(u, app, p) <==> HeldByAnother(s, app, p)
  {
  }

  function OnlyHeld(functions: map<Name, Function>, held: set<Name>): map<Name, Function> {
    map f | f in functions :: functions[f].(permissions := functions[f].permissions * held)
  }

  lemma OrphansLeaveHeld(s: Store, t: Store)
    requires WellFormed(s) && t.functions == s.functions && s.permissions.Keys <= t.permissions.Keys
    ensures var u := WithoutOrphans(t);
            u.functions == OnlyHeld(s.functions, Held(t.appFunctions))
  {
    var u, held := WithoutOrphans(t), Held(t.appFunctions);
    forall f <- s.functions
      ensures s.functions[f].permissions - (t.permissions.Keys - held) == s.functions[f].permissions * held
    {
    }
  }

  lemma UpdateDropsOrphans(s: Store, d: ApplicationDecl, t: Store, u: Store)
    requires WellFormed(s) && Saved(s, d.name, Synchronised(Load(s, d.name), d.body.functions)) == Ok(t)
    requires var w := WithoutOrphans(WithoutUndeclared(t, d.name, Names(d.body.functions)));
             PoliciesSynchronised(w, d.name, d.body.policies) == Ok(u)
    ensures u.functions == OnlyHeld(s.functions, Held(u.appFunctions))
  {
    var m := Synchronised(Load(s, d.name), d.body.functions);
    SavedRows(s, d.name, m, t);
    SavedPermissions(s, d.name, m, t);
    var kept := WithoutUndeclared(t, d.name, Names(d.body.functions));
    OrphansLeaveHeld(s, kept);
    PoliciesConverge(WithoutOrphans(kept), d.name, d.body.policies);
  }

  lemma NothingOrphaned(u: Store)
    requires WellFormed(u) && PermissionsHeld(u)
    ensures u.functions == OnlyHeld(u.functions, Held(u.appFunctions))
  {
    forall f <- u.functions ensures u.functions[f].permissions * Held(u.appFunctions) == u.functions[f].permissions {
      assert u.functions[f].permissions <= u.permissions.Keys;
    }
  }

  /** A business function keeps exactly those of its permissions that are still held. */
  lemma FunctionsAfterApply(s: Store, d: ApplicationDecl, u: Store)
    requires Sound(s) && AfterApply(s, d) == Ok(u)
    ensures u.functions == OnlyHeld(s.functions, Held(u.appFunctions))
  {
    var app, fs := d.name, d.body.functions;
    if app in s.applications {
      UpdateDropsOrphans(s, d, Saved(s, app, Synchronised(Load(s, app), fs)).value, u);
    } else {
      ApplyKeepsSound(s, d, u);
      var r := s.(apiResources := s.apiResources + {app});
      var t := Saved(r, app, Synchronised(map[], fs)).value;
      SavedRows(r, app, Synchronised(map[], fs), t);
      PoliciesConverge(t, app, d.body.policies);
      NothingOrphaned(u);
    }
  }

  lemma PermissionsHeldExactly(u: Store)
    requires WellFormed(u) && PermissionsHeld(u)
    ensures u.permissions.Keys == Held(u.appFunctions)
  {
    forall p <- Held(u.appFunctions) ensures p in u.permissions {
      var f :| f in u.appFunctions && p in u.appFunctions[f].permissions;
    }
  }

  /** The stored permissions are those that some application function holds: old ones with the description
      they had, new ones with a description that the declaration gives them. */
  lemma PermissionsAfterApply(s: Store, d: ApplicationDecl, u: Store)
    requires Sound(s) && AfterApply(s, d) == Ok(u)
    ensures u.permissions.Keys == Held(u.appFunctions)
    ensures forall p <- u.permissions ::
              if p in s.permissions then u.permissions[p] == s.permissions[p]
              else exists f <- d.body.functions :: Entry(p, u.permissions[p]) in f.body.permissions
  {
    hide AfterApply, WellFormed, Held;
    ApplyKeepsSound(s, d, u);
    SoundIsWellFormed(u);
    PermissionsHeldExactly(u);
    AppliedPermissions(s, d, u);
    assert forall e :: Declares(d.body.functions, e) ==> exists f <- d.body.functions :: e in f.body.permissions;
  }

  /** A team keeps exactly those of its policies that are still stored. */
  lemma TeamsAfterApply(s: Store, d: ApplicationDecl, u: Store)
    requires WellFormed(s) && AfterApply(s, d) == Ok(u)
    ensures u.teams.Keys == s.teams.Keys
    ensures forall t <- s.teams :: u.teams[t] == s.teams[t].(policies := s.teams[t].policies * u.dataPolicies.Keys)
  {
    hide Saved, Synchronised, PoliciesSynchronised, Load;
    var app, fs := d.name, d.body.functions;
    var r := if app in s.applications then s else s.(apiResources := s.apiResources + {app});
    var m := Synchronised(if app in s.applications then Load(s, app) else map[], fs);
    var t := Saved(r, app, m).value;
    SavedRows(r, app, m, t);
    var v := if app in s.applications then WithoutOrphans(WithoutUndeclared(t, app, Names(fs))) else t;
    PoliciesLeaveTeams(v, app, d.body.policies, u);
  }

  lemma PolicyAfterApplyIff(s: Store, d: ApplicationDecl, u: Store, p: Name)
    requires AfterApply(s, d) == Ok(u) && p in s.dataPolicies
    ensures p in u.dataPolicies <==> (s.dataPolicies[p].application == d.name ==> p in Names(d.body.policies))
    ensures p in u.dataPolicies ==> u.dataPolicies[p].application == s.dataPolicies[p].application
  {
    hide Saved, Synchronised, PoliciesSynchronised, Load;
    var app, fs := d.name, d.body.functions;
    var r := if app in s.applications then s else s.(apiResources := s.apiResources + {app});
    var m := Synchronised(if app in s.applications then Load(s, app) else map[], fs);
    var t := Saved(r, app, m).value;
    SavedRows(r, app, m, t);
    var v := if app in s.applications then WithoutOrphans(WithoutUndeclared(t, app, Names(fs))) else t;
    PolicyStaysIff(v, app, d.body.policies, u, p);
  }

  lemma CoveredIff(s: Store, d: ApplicationDecl, u: Store)
    requires FunctionsCovered(s) && u.functions == OnlyHeld(s.functions, Held(u.appFunctions))
    requires FunctionsEnd(u, d.name, d.body.functions) && OthersUntouched(s, u, d.name)
    ensures FunctionsCovered(u) <==> !Strands(s, d)
  {
    EndHolds(u, d);
    OthersHold(s, u, d.name);
    if Strands(s, d) {
      var f, p :| f in s.functions && p in s.functions[f].permissions && s.functions[f].application == Some(d.name)
                  && p !in DeclaredPermissions(d.body) && HeldByAnother(s, d.name, p);
      assert HeldByAnother(u, d.name, p) && p in u.functions[f].permissions;
    } else {
      forall f <- u.functions, p <- u.functions[f].permissions | u.functions[f].application.Some?
        ensures p in HeldBy(u.appFunctions, u.functions[f].application.value)
      {
        assert p in HeldBy(s.appFunctions, s.functions[f].application.value);
        assert p in HeldBy(u.appFunctions, d.name) || HeldByAnother(u, d.name, p);
      }
    }
  }

  /** Every permission of a business function stays a permission of its application, exactly when
      the declaration strands none. */
  lemma ApplyKeepsCoveredIff(s: Store, d: ApplicationDecl, u: Store)
    requires Sound(s) && FunctionsCovered(s) && AfterApply(s, d) == Ok(u)
    ensures FunctionsCovered(u) <==> !Strands(s, d)
  {
    FunctionsAfterApply(s, d, u);
    ApplyConverges(s, d, u);
    CoveredIff(s, d, u);
  }

  /** A store where no permission is shared strands nothing, and stays that way exactly when the
      declaration claims no other application's permission. */
  lemma UnsharedStrandsNothing(s: Store, d: ApplicationDecl)
    requires FunctionsCovered(s) && Unshared(s)
    ensures !Strands(s, d)
  {
    forall f <- s.functions, p <- s.functions[f].permissions | s.functions[f].application == Some(d.name)
      ensures !HeldByAnother(s, d.name, p)
    {
      assert p in HeldBy(s.appFunctions, d.name);
    }
  }

  lemma ApplyKeepsUnsharedIff(s: Store, d: ApplicationDecl, u: Store)
    requires WellFormed(s) && Unshared(s) && AfterApply(s, d) == Ok(u)
    ensures Unshared(u) <==> forall p <- DeclaredPermissions(d.body) :: !HeldByAnother(s, d.name, p)
  {
    ApplyConverges(s, d, u);
    EndHolds(u, d);
    OthersHold(s, u, d.name);
    if Unshared(u) {
      forall p <- DeclaredPermissions(d.body) ensures !HeldByAnother(u, d.name, p) {
        assert p in HeldBy(u.appFunctions, d.name);
      }
    }
    if forall p <- DeclaredPermissions(d.body) :: !HeldByAnother(s, d.name, p) {
      forall f, g | f in u.appFunctions && g in u.appFunctions
          && u.appFunctions[f].application != u.appFunctions[g].application
        ensures u.appFunctions[f].permissions !! u.appFunctions[g].permissions
      {
        forall p <- u.appFunctions[f].permissions ensures p !in u.appFunctions[g].permissions {
          if u.appFunctions[f].application == d.name {
            assert p in HeldBy(u.appFunctions, d.name);
          } else if u.appFunctions[g].application == d.name {
            assert HeldByAnother(u, d.name, p);
          }
        }
      }
    }
  }

  // ---- applying a declaration that already holds ----

  lemma {:induction false} AddAllNothing(t: Tracked, ps: seq<Entry<Text>>)
    requires Names(ps) <= t.kept && t.added == []
    ensures AddAll(t, ps) == t
    decreases |ps|
  {
    if ps != [] {
      NamesSplit(ps);
      AddAllNothing(t, ps[1..]);
    }
  }

  lemma {:induction false} SynchronisedNothing(m: map<Name, Tracked>, fs: seq<Entry<AppFunctionBody>>)
    requires forall i :: 0 <= i < |fs| ==> fs[i].name in m && Edited(m[fs[i].name], fs[i].body) == m[fs[i].name]
    ensures Synchronised(m, fs) == m
    decreases |fs|
  {
    if fs != [] {
      assert m[fs[0].name := m[fs[0].name]] == m;
      forall i | 0 <= i < |fs[1..]|
        ensures fs[1..][i].name in m && Edited(m[fs[1..][i].name], fs[1..][i].body) == m[fs[1..][i].name]
      {
        assert fs[1..][i] == fs[i + 1];
      }
      SynchronisedNothing(m, fs[1..]);
    }
  }

  lemma {:induction false} PutPoliciesNothing(m: map<Name, DataPolicy>, app: Name, ps: seq<Entry<Text>>)
    requires forall i :: 0 <= i < |ps| ==> ps[i].name in m && m[ps[i].name] == DataPolicy(app, ps[i].body)
    ensures PutPolicies(m, app, ps) == m
    decreases |ps|
  {
    if ps != [] {
      assert m[ps[0].name := m[ps[0].name]] == m;
      PutPoliciesNothing(m, app, ps[1..]);
    }
  }

  lemma LoadedRows(s: Store, app: Name)
    ensures s.appFunctions + Rows(app, Load(s, app)) == s.appFunctions
  {
    var m := Load(s, app);
    forall f <- m ensures m[f].Permissions() == s.appFunctions[f].permissions {
      assert Names(m[f].added) == {};
    }
  }

  lemma NothingAdded(stored: set<Name>, m: map<Name, Tracked>)
    requires forall f <- m :: m[f].added == []
    ensures !Clash(stored, m) && NewPermissions(stored, m) == map[]
  {
  }

  lemma SaveNothing(s: Store, app: Name)
    requires app in s.applications
    ensures Saved(s, app, Load(s, app)) == Ok(s)
  {
    hide Clash, NewPermissions, Rows;
    var m := Load(s, app);
    assert !NameTaken(s, app, m.Keys);
    NothingAdded(s.permissions.Keys, m);
    LoadedRows(s, app);
    assert s.permissions + map[] == s.permissions && s.applications + {app} == s.applications;
  }

  lemma PoliciesNothing(s: Store, app: Name, ps: seq<Entry<Text>>)
    requires PoliciesMatch(s, app, ps)
    ensures PoliciesSynchronised(s, app, ps) == Ok(s)
  {
    var gone := set p | p in s.dataPolicies && PolicyGone(s, app, Names(ps), p);
    assert gone == {};
    WithoutNothing(s);
    PutPoliciesNothing(s.dataPolicies, app, ps);
  }

  lemma MatchedIsLoaded(s: Store, app: Name, fs: seq<Entry<AppFunctionBody>>)
    requires FunctionsMatch(s, app, fs)
    ensures Synchronised(Load(s, app), fs) == Load(s, app)
  {
    hide Edited;
    var m := Load(s, app);
    forall i | 0 <= i < |fs| ensures fs[i].name in m && Edited(m[fs[i].name], fs[i].body) == m[fs[i].name] {
      EditedNothing(m[fs[i].name], fs[i].body);
    }
    SynchronisedNothing(m, fs);
  }

  lemma EditedNothing(t: Tracked, body: AppFunctionBody)
    requires t == Tracked(body.description, Names(body.permissions), [])
    ensures Edited(t, body) == t
  {
    AddAllNothing(t, body.permissions);
    assert t.kept * Names(body.permissions) == t.kept;
  }

  /** Applying a declaration to a store that already matches it changes nothing. */
  lemma MatchedIsFixed(s: Store, d: ApplicationDecl)
    requires PermissionsHeld(s) && Matches(s, d)
    ensures AfterApply(s, d) == Ok(s)
  {
    hide Load, Saved, Synchronised, PoliciesSynchronised;
    var app, fs := d.name, d.body.functions;
    MatchedIsLoaded(s, app, fs);
    SaveNothing(s, app);
    NoneUndeclared(s, app, Names(fs));
    assert s.permissions.Keys - Held(s.appFunctions) == {};
    WithoutNothing(s);
    PoliciesNothing(s, app, d.body.policies);
  }

  /** Applying another application's declaration keeps a match. */
  lemma OthersKeepMatch(s: Store, u: Store, d: ApplicationDecl, app: Name)
    requires Matches(s, d) && app != d.name && OthersUntouched(s, u, app) && s.applications <= u.applications
    ensures Matches(u, d)
  {
  }

  /** The tables the declaration of an application does not touch. */
  lemma ApplyLeaves(s: Store, d: ApplicationDecl, u: Store)
    requires AfterApply(s, d) == Ok(u)
    ensures u.applications == s.applications + {d.name}
    ensures u.apiResources == s.apiResources + if d.name in s.applications then {} else {d.name}
    ensures u.roles == s.roles && u.users == s.users && PoliciesAside(s.teams, u.teams)
  {
    var app, fs := d.name, d.body.functions;
    var r := if app in s.applications then s else s.(apiResources := s.apiResources + {app});
    var m := Synchronised(if app in s.applications then Load(s, app) else map[], fs);
    var t := Saved(r, app, m).value;
    SavedRows(r, app, m, t);
    var v := if app in s.applications then WithoutOrphans(WithoutUndeclared(t, app, Names(fs))) else t;
    PoliciesConverge(v, app, d.body.policies);
  }
}
