/** Exactly which permissions of business functions a contract strands. */
module Stranding {
  import opened Results
  import opened Entries
  import opened Model
  import opened Invariants
  import FunctionService
  import opened SecurityContractApplication
  import opened SecurityContractDefaultConfiguration
  import opened ApplicationConvergence
  import ApplicationInvariants
  import opened ApplicationsSection
  import opened TeamsSection
  import opened UsersSection
  import opened SecurityContract

  /** What an application holds after the list is applied: what it declares last, or what it held. */
  function HoldsAfter(s: Store, ds: seq<ApplicationDecl>, app: Name): set<Name> {
    if app in Names(ds) then ApplicationInvariants.DeclaredPermissions(Final(ds, app)) else HeldBy(s.appFunctions, app)
  }

  ghost predicate SomeoneHolds(s: Store, ds: seq<ApplicationDecl>, p: Name) {
    exists app :: p in HoldsAfter(s, ds, app)
  }

  /** After every declaration of the list some application holds the permission. */
  ghost predicate NeverOrphaned(s: Store, ds: seq<ApplicationDecl>, p: Name) {
    forall j :: 0 <= j <= |ds| ==> SomeoneHolds(s, ds[..j], p)
  }

  /** The application of the business function does not hold this permission of it. */
  predicate Uncovered(s: Store, f: Name, p: Name) {
    && f in s.functions && s.functions[f].application.Some? && p in s.functions[f].permissions
    && p !in HeldBy(s.appFunctions, s.functions[f].application.value)
  }

  /** Somebody holds this permission of the business function all the time, but its own application
      not at the end. */
  ghost predicate Strands(s: Store, ds: seq<ApplicationDecl>, f: Name, p: Name) {
    && f in s.functions && s.functions[f].application.Some? && p in s.functions[f].permissions
    && p !in HoldsAfter(s, ds, s.functions[f].application.value)
    && NeverOrphaned(s, ds, p)
  }

  /** The list of functions of an existing application rewrites, removes or detaches the function. */
  predicate Touches(applications: set<Name>, app: Name, e: Entry<FunctionList>, f: Name) {
    e.name in applications && e.body != [] && (e.name == app || f in Names(Live(e.body)))
  }

  predicate SectionTouches(applications: set<Name>, app: Name, d: DefaultConfiguration, f: Name) {
    exists e <- d.applications :: Touches(applications, app, e, f)
  }

  /** The contract leaves some business function with a permission that its application does not hold:
      its applications strand it, and none of its default configurations touches the function. */
  ghost predicate LeavesStranded(s: Store, c: Contract) {
    exists f <- s.functions, p <- s.functions[f].permissions :: LeavesOneStranded(s, c, f, p)
  }

  ghost predicate LeavesOneStranded(s: Store, c: Contract, f: Name, p: Name) {
    && Strands(s, c.applications, f, p)
    && forall d <- c.defaults ::
         !SectionTouches(s.applications + Names(c.applications), s.functions[f].application.value, d, f)
  }

  lemma ApplyHolds(s: Store, d: ApplicationDecl, u: Store)
    requires Sound(s) && AfterApply(s, d) == Ok(u)
    ensures Sound(u) && forall app :: HeldBy(u.appFunctions, app) == HoldsAfter(s, [d], app)
  {
    hide AfterApply, HeldBy, Sound;
    ApplicationInvariants.ApplyKeepsSound(s, d, u);
    SoundIsWellFormed(s);
    ApplyConverges(s, d, u);
    ApplicationInvariants.EndHolds(u, d);
    ApplicationInvariants.OthersHold(s, u, d.name);
    forall app ensures HeldBy(u.appFunctions, app) == HoldsAfter(s, [d], app) {
      NamesSplit([d]);
      assert [d][1..] == [];
    }
  }

  /** What is held after the whole list is what is held after the rest of it, applied to what the
      first declaration leaves. */
  lemma HoldsAfterRest(s: Store, ds: seq<ApplicationDecl>, u: Store)
    requires ds != [] && forall app :: HeldBy(u.appFunctions, app) == HoldsAfter(s, [ds[0]], app)
    ensures forall app :: HoldsAfter(u, ds[1..], app) == HoldsAfter(s, ds, app)
  {
    hide HeldBy, ApplicationInvariants.DeclaredPermissions;
    forall app ensures HoldsAfter(u, ds[1..], app) == HoldsAfter(s, ds, app) {
      NamesSplit(ds);
      NamesSplit([ds[0]]);
      assert [ds[0]][1..] == [];
      assert HeldBy(u.appFunctions, app) == HoldsAfter(s, [ds[0]], app);
    }
  }

  lemma {:induction false} ListHolds(s: Store, ds: seq<ApplicationDecl>, t: Store)
    requires Sound(s) && AfterResourceServers(s, ds) == Ok(t)
    ensures forall app :: HeldBy(t.appFunctions, app) == HoldsAfter(s, ds, app)
    decreases |ds|
  {
    if ds != [] {
      hide AfterApply, HoldsAfter, HeldBy, Sound;
      var u := AfterApply(s, ds[0]).value;
      ApplyHolds(s, ds[0], u);
      HoldsAfterRest(s, ds, u);
      ListHolds(u, ds[1..], t);
    } else {
      hide HeldBy;
    }
  }

  lemma SomeoneHoldsIff(s: Store, ds: seq<ApplicationDecl>, t: Store)
    requires forall app :: HeldBy(t.appFunctions, app) == HoldsAfter(s, ds, app)
    ensures forall p :: SomeoneHolds(s, ds, p) <==> p in Held(t.appFunctions)
  {
    hide HoldsAfter;
    forall p ensures SomeoneHolds(s, ds, p) <==> p in Held(t.appFunctions) {
      if p in Held(t.appFunctions) {
        var f :| f in t.appFunctions && p in t.appFunctions[f].permissions;
        assert p in HeldBy(t.appFunctions, t.appFunctions[f].application);
      }
      if SomeoneHolds(s, ds, p) {
        var app :| p in HoldsAfter(s, ds, app);
        assert p in HeldBy(t.appFunctions, app);
      }
    }
  }

  lemma SomeoneHoldsRest(s: Store, ds: seq<ApplicationDecl>, u: Store, j: nat, p: Name)
    requires j < |ds| && forall app :: HeldBy(u.appFunctions, app) == HoldsAfter(s, [ds[0]], app)
    ensures SomeoneHolds(u, ds[1..][..j], p) <==> SomeoneHolds(s, ds[..j + 1], p)
  {
    hide HoldsAfter, HeldBy;
    var es := ds[..j + 1];
    assert es[1..] == ds[1..][..j] && es[0] == ds[0];
    HoldsAfterRest(s, es, u);
  }

  lemma NeverOrphanedSplit(s: Store, ds: seq<ApplicationDecl>, u: Store, p: Name)
    requires ds != [] && forall app :: HeldBy(u.appFunctions, app) == HoldsAfter(s, [ds[0]], app)
    ensures NeverOrphaned(s, ds, p) <==> SomeoneHolds(s, [], p) && NeverOrphaned(u, ds[1..], p)
  {
    hide HoldsAfter, HeldBy;
    forall j | 0 <= j < |ds| ensures SomeoneHolds(u, ds[1..][..j], p) <==> SomeoneHolds(s, ds[..j + 1], p) {
      SomeoneHoldsRest(s, ds, u, j, p);
    }
    assert ds[..0] == [];
    if SomeoneHolds(s, [], p) && NeverOrphaned(u, ds[1..], p) {
      forall j | 0 < j <= |ds| ensures SomeoneHolds(s, ds[..j], p) {
        assert SomeoneHolds(u, ds[1..][..j - 1], p);
      }
    }
  }

  /** A business function loses the permissions that nobody holds after one of the declarations. */
  lemma {:induction false} ListKeepsHeld(s: Store, ds: seq<ApplicationDecl>, t: Store, f: Name, p: Name)
    requires Sound(s) && AfterResourceServers(s, ds) == Ok(t)
    ensures f in t.functions <==> f in s.functions
    ensures f in s.functions ==>
              && t.functions[f].application == s.functions[f].application
              && (p in t.functions[f].permissions <==> p in s.functions[f].permissions && NeverOrphaned(s, ds, p))
    decreases |ds|
  {
    hide AfterApply, Sound, NeverOrphaned;
    FunctionsAreHeld(s);
    NothingApplied(s, p);
    if ds != [] {
      var u := AfterApply(s, ds[0]).value;
      ApplyHolds(s, ds[0], u);
      ApplicationInvariants.FunctionsAfterApply(s, ds[0], u);
      NeverOrphanedSplit(s, ds, u, p);
      NeverOrphanedStart(u, ds[1..], p);
      ListKeepsHeld(u, ds[1..], t, f, p);
    }
  }

  lemma FunctionsAreHeld(s: Store)
    requires Sound(s)
    ensures forall f <- s.functions :: s.functions[f].permissions <= Held(s.appFunctions)
  {
  }

  lemma NothingApplied(s: Store, p: Name)
    ensures SomeoneHolds(s, [], p) <==> p in Held(s.appFunctions)
    ensures NeverOrphaned(s, [], p) <==> p in Held(s.appFunctions)
  {
    SomeoneHoldsIff(s, [], s);
    var none: seq<ApplicationDecl> := [];
    assert none[..0] == none;
  }

  lemma NeverOrphanedStart(s: Store, ds: seq<ApplicationDecl>, p: Name)
    ensures NeverOrphaned(s, ds, p) ==> p in Held(s.appFunctions)
  {
    assert ds[..0] == [] && (NeverOrphaned(s, ds, p) ==> SomeoneHolds(s, ds[..0], p));
    NothingApplied(s, p);
  }

  lemma ListStrandsIff(s: Store, ds: seq<ApplicationDecl>, t: Store, f: Name, p: Name)
    requires Sound(s) && AfterResourceServers(s, ds) == Ok(t)
    ensures Uncovered(t, f, p) <==> Strands(s, ds, f, p)
    ensures f in t.functions ==> f in s.functions && t.functions[f].application == s.functions[f].application
  {
    hide AfterResourceServers, HoldsAfter, HeldBy, NeverOrphaned, Sound;
    ListHolds(s, ds, t);
    ListKeepsHeld(s, ds, t, f, p);
  }

  // ---- default configurations ----

  predicate Own(s: Store, app: Name, row: Function) {
    row.application in {None, Some(app)} && row.permissions <= HeldBy(s.appFunctions, app)
  }

  lemma {:induction false} AssignedRow(s: Store, app: Name, fs: FunctionList, acc: Pending, f: Name)
    requires AssignFunctions(s, app, fs, acc).Ok?
    requires f in acc.functions ==> f in s.functions || Own(s, app, acc.functions[f])
    ensures var r := AssignFunctions(s, app, fs, acc).value.functions;
            if f in Names(Live(fs)) then f in r ==> Own(s, app, r[f])
            else (f in r <==> f in acc.functions) && (f in r ==> r[f] == acc.functions[f])
    decreases |fs|
  {
    if fs != [] && fs[0].body.permissions != [] {
      hide HasAppFunctions, AddsOnce, HeldBy;
      NamesSplit(Live(fs));
      assert Live(fs)[1..] == Live(fs[1..]);
      if HasAppFunctions(s, app) {
        AssignedRow(s, app, fs[1..], PutRow(s, app, acc, fs[0]), f);
      } else {
        AssignedRow(s, app, fs[1..], PutEmpty(s, app, acc, fs[0]), f);
      }
    }
  }

  lemma ApplicationTouches(s: Store, e: Entry<FunctionList>, t: Store, f: Name, p: Name)
    requires AfterApplication(s, e) == Ok(t) && t.appFunctions == s.appFunctions
    ensures Uncovered(t, f, p) <==>
            Uncovered(s, f, p) && !Touches(s.applications, s.functions[f].application.value, e, f)
    ensures Uncovered(t, f, p) ==> t.functions[f] == s.functions[f]
  {
    if e.name in s.applications && e.body != [] {
      hide AssignFunctions, HeldBy, Live;
      var u := FunctionService.WithoutFunctions(s, Undeclared(s, e.name, e.body));
      var acc := Pending(Detached(u, e.name), false);
      LiveIsPrefix(e.body);
      AssignedRow(u, e.name, e.body, acc, f);
    }
  }

  lemma {:induction false} SectionTouchesIff(s: Store, ds: seq<Entry<FunctionList>>, t: Store, f: Name, p: Name)
    requires Sound(s) && AfterApplications(s, ds) == Ok(t)
    ensures Uncovered(t, f, p) <==>
            Uncovered(s, f, p) && forall e <- ds :: !Touches(s.applications, s.functions[f].application.value, e, f)
    ensures Uncovered(t, f, p) ==> t.functions[f] == s.functions[f]
    decreases |ds|
  {
    if ds != [] {
      hide AfterApplication, Sound, Uncovered, Touches;
      var u := AfterApplication(s, ds[0]).value;
      ApplicationKeeps(s, ds[0], u);
      ApplicationTouches(s, ds[0], u, f, p);
      SectionTouchesIff(u, ds[1..], t, f, p);
      assert forall e :: e in ds <==> e == ds[0] || e in ds[1..];
    }
  }

  lemma DefaultsTouch(s: Store, d: DefaultConfiguration, t: Store, f: Name, p: Name)
    requires Sound(s) && AfterDefaults(s, d) == Ok(t)
    ensures Uncovered(t, f, p) <==>
            Uncovered(s, f, p) && !SectionTouches(s.applications, s.functions[f].application.value, d, f)
    ensures Uncovered(t, f, p) ==> t.functions[f] == s.functions[f]
  {
    hide AfterApplications, AfterRoles, AfterUsers, AfterTeams, Sound, Touches;
    var a := AfterApplications(s, d.applications).value;
    var r := AfterRoles(a, d.roles).value;
    var u := AfterUsers(r, d.users).value;
    ApplicationsKeep(s, d.applications, a);
    SectionTouchesIff(s, d.applications, a, f, p);
    RolesKeepSound(a, d.roles, r);
    UsersKeepSound(r, d.users, u);
    TeamsFrame(u, d.teams, t);
  }

  lemma {:induction false} DefaultListTouches(s: Store, ds: seq<DefaultConfiguration>, t: Store, f: Name, p: Name)
    requires Sound(s) && AfterDefaultList(s, ds) == Ok(t)
    ensures Uncovered(t, f, p) <==>
            Uncovered(s, f, p) && forall d <- ds ::
                !SectionTouches(s.applications, s.functions[f].application.value, d, f)
    ensures Uncovered(t, f, p) ==> t.functions[f] == s.functions[f]
    decreases |ds|
  {
    if ds != [] {
      hide AfterDefaults, Sound, Uncovered, SectionTouches;
      var u := AfterDefaults(s, ds[0]).value;
      DefaultsKeep(s, ds[0], u);
      DefaultsTouch(s, ds[0], u, f, p);
      DefaultListTouches(u, ds[1..], t, f, p);
      assert forall d :: d in ds <==> d == ds[0] || d in ds[1..];
    }
  }

  lemma ContractLeavesIff(s: Store, c: Contract, t: Store, f: Name, p: Name)
    requires Sound(s) && AfterContract(s, c) == Ok(t)
    ensures Uncovered(t, f, p) <==> LeavesOneStranded(s, c, f, p)
    ensures f in t.functions && Uncovered(t, f, p) ==> f in s.functions && p in s.functions[f].permissions
  {
    hide AfterResourceServers, AfterDefaultList, Sound, SectionTouches;
    var u := AfterResourceServers(s, c.applications).value;
    ResourceServersKeepSound(s, c.applications, u);
    ListStrandsIff(s, c.applications, u, f, p);
    ResourceServersFrame(s, c.applications, u);
    DefaultListTouches(u, c.defaults, t, f, p);
  }

  lemma CoveredMeansNoneUncovered(s: Store)
    ensures FunctionsCovered(s) <==> forall f, p :: !Uncovered(s, f, p)
  {
    if !FunctionsCovered(s) {
      var f :| f in s.functions && s.functions[f].application.Some?
               && !(s.functions[f].permissions <= HeldBy(s.appFunctions, s.functions[f].application.value));
      var p :| p in s.functions[f].permissions && p !in HeldBy(s.appFunctions, s.functions[f].application.value);
      assert Uncovered(s, f, p);
    }
  }

  /** After a contract every permission of a business function is one of its application's, exactly
      when the contract leaves none stranded, whether all of them were before it or not. */
  lemma ContractCoveredIff(s: Store, c: Contract, t: Store)
    requires Sound(s) && AfterContract(s, c) == Ok(t)
    ensures FunctionsCovered(t) <==> !LeavesStranded(s, c)
  {
    hide AfterContract, Sound, LeavesOneStranded, FunctionsCovered;
    CoveredMeansNoneUncovered(t);
    forall f, p
      ensures Uncovered(t, f, p) <==> LeavesOneStranded(s, c, f, p)
      ensures Uncovered(t, f, p) ==> f in s.functions && p in s.functions[f].permissions
    {
      ContractLeavesIff(s, c, t, f, p);
    }
  }
}
