/** What the applications section of a default configuration achieves: business functions. */
module ApplicationsSection {
  import opened Results
  import opened Entries
  import opened Model
  import opened Invariants
  import opened Assignments
  import FunctionService
  import opened SecurityContractDefaultConfiguration

  type FunctionList = seq<Entry<FunctionBody>>

  function FunctionRow(app: Name, f: Entry<FunctionBody>): Function {
    Function(Some(app), f.body.description, Elements(f.body.permissions))
  }

  function PutRow(s: Store, app: Name, acc: Pending, f: Entry<FunctionBody>): Pending {
    Put(s, acc, f.name, FunctionRow(app, f), AddsOnce(s, app, f.body.permissions))
  }

  /** The functions the walk reaches: those before the first without permissions. */
  function Live(fs: FunctionList): FunctionList {
    if fs == [] || fs[0].body.permissions == [] then [] else [fs[0]] + Live(fs[1..])
  }

  predicate AllLive(fs: FunctionList) {
    forall f <- fs :: f.body.permissions != []
  }

  lemma {:induction false} LiveIsPrefix(fs: FunctionList)
    ensures Live(fs) <= fs && AllLive(Live(fs)) && Names(Live(fs)) <= Names(fs)
    ensures DistinctNames(fs) ==> DistinctNames(Live(fs))
  {
    if fs != [] && fs[0].body.permissions != [] {
      LiveIsPrefix(fs[1..]);
      assert fs == [fs[0]] + fs[1..];
    }
  }

  lemma {:induction false} WalkEndsEarly(s: Store, app: Name, fs: FunctionList, acc: Pending)
    ensures AssignFunctions(s, app, fs, acc) == AssignFunctions(s, app, Live(fs), acc)
    decreases |fs|
  {
    if fs != [] && fs[0].body.permissions != [] {
      assert Live(fs)[1..] == Live(fs[1..]);
      if HasAppFunctions(s, app) {
        WalkEndsEarly(s, app, fs[1..], PutRow(s, app, acc, fs[0]));
      } else {
        WalkEndsEarly(s, app, fs[1..], PutEmpty(s, app, acc, fs[0]));
      }
    }
  }

  /** The application holds every permission of the function, in one application function, and the
      function names it once. */
  predicate Obtainable(s: Store, app: Name, f: Entry<FunctionBody>) {
    && Elements(f.body.permissions) <= HeldBy(s.appFunctions, app) && Distinct(f.body.permissions)
    && forall p <- f.body.permissions :: !HeldTwice(s.appFunctions, app, p)
  }

  /** The functions of the application are the declared ones the walk reaches; an application that
      does not exist, or has no list, is skipped; without application functions stored functions lose
      their permissions and none is made. */
  predicate ApplicationHolds(s: Store, app: Name, fs: FunctionList) {
    app in s.applications && fs != [] ==>
      var live := Live(fs);
      && (forall f <- s.functions :: s.functions[f].application == Some(app) ==> f in Names(live))
      && if HasAppFunctions(s, app) then
           forall f <- live ::
             f.name in s.functions && s.functions[f.name] == FunctionRow(app, f) && Obtainable(s, app, f)
         else
           forall f <- live :: f.name in s.functions ==> Emptied(s.functions[f.name], app, f)
  }

  predicate Emptied(row: Function, app: Name, f: Entry<FunctionBody>) {
    row.permissions == {} && row.description == f.body.description && row.application in {None, Some(app)}
  }

  /** No stored function is named under an application without application functions: such a list moves
      the function to the application, or away from it, every time it is applied. */
  predicate NothingMoves(s: Store, app: Name, fs: FunctionList) {
    app in s.applications && !HasAppFunctions(s, app) ==> forall f <- Live(fs) :: f.name !in s.functions
  }

  /** What a walk over functions with distinct names leaves in memory, if permissions can be found. */
  lemma {:induction false} AssignedAt(s: Store, app: Name, fs: FunctionList, acc: Pending)
    requires HasAppFunctions(s, app) && AllLive(fs) && DistinctNames(fs)
    requires Names(fs) !! (acc.functions.Keys - s.functions.Keys)
    ensures var r := AssignFunctions(s, app, fs, acc);
            && (r.Ok? <==> forall f <- fs :: Elements(f.body.permissions) <= HeldBy(s.appFunctions, app))
            && (r.Ok? ==>
                  && r.value.functions.Keys == acc.functions.Keys + Names(fs)
                  && (forall f <- acc.functions :: f !in Names(fs) ==> r.value.functions[f] == acc.functions[f])
                  && (forall f <- fs :: r.value.functions[f.name] == FunctionRow(app, f)))
    decreases |fs|
  {
    if fs != [] {
      hide AddsOnce, HasAppFunctions;
      var f := fs[0];
      assert fs == [f] + fs[1..];
      NamesSplit(fs);
      DistinctSplit(fs);
      AssignedAt(s, app, fs[1..], PutRow(s, app, acc, f));
    }
  }

  /** And whether a row was added twice on the way. */
  lemma {:induction false} AssignedOnce(s: Store, app: Name, fs: FunctionList, acc: Pending)
    requires HasAppFunctions(s, app) && AllLive(fs) && DistinctNames(fs)
    requires Names(fs) !! (acc.functions.Keys - s.functions.Keys) && AssignFunctions(s, app, fs, acc).Ok?
    ensures AssignFunctions(s, app, fs, acc).value.twice <==>
              acc.twice || exists f <- fs :: !AddsOnce(s, app, f.body.permissions)
    decreases |fs|
  {
    if fs != [] {
      hide AddsOnce, HasAppFunctions, HeldBy;
      var f := fs[0];
      assert forall g :: g in fs <==> g == f || g in fs[1..];
      NamesSplit(fs);
      DistinctSplit(fs);
      AssignedOnce(s, app, fs[1..], PutRow(s, app, acc, f));
    }
  }

  /** The same for an application without application functions. */
  lemma {:induction false} EmptiedAt(s: Store, app: Name, fs: FunctionList, acc: Pending)
    requires !HasAppFunctions(s, app) && AllLive(fs) && DistinctNames(fs)
    requires !acc.twice && acc.functions.Keys == s.functions.Keys
    ensures var r := AssignFunctions(s, app, fs, acc);
            && r.Ok? && !r.value.twice
            && r.value.functions.Keys == acc.functions.Keys
            && (forall f <- acc.functions :: f !in Names(fs) ==> r.value.functions[f] == acc.functions[f])
            && (forall f <- fs :: f.name in s.functions ==>
                  r.value.functions[f.name] == Function(Moved(s, app, f.name), f.body.description, {}))
    decreases |fs|
  {
    if fs != [] {
      assert fs == [fs[0]] + fs[1..];
      NamesSplit(fs);
      DistinctSplit(fs);
      EmptiedAt(s, app, fs[1..], PutEmpty(s, app, acc, fs[0]));
    }
  }

  /** The row the walk leaves for a function that is stored afterwards. */
  function WalkedRow(s: Store, app: Name, f: Entry<FunctionBody>): Function
    requires HasAppFunctions(s, app) || f.name in s.functions
  {
    if HasAppFunctions(s, app) then FunctionRow(app, f) else Function(Moved(s, app, f.name), f.body.description, {})
  }

  /** The walk of a list, from the store without the functions it does not name. */
  lemma Walked(s: Store, app: Name, fs: FunctionList) returns (u: Store, acc: Pending)
    requires DistinctNames(fs)
    ensures u == FunctionService.WithoutFunctions(s, Undeclared(s, app, fs))
    ensures acc == Pending(Detached(u, app), false)
    ensures var live, r := Live(fs), AssignFunctions(u, app, fs, acc);
            && Names(live) <= Names(fs)
            && (r.Ok? && !r.value.twice <==> (HasAppFunctions(s, app) ==> forall f <- live :: Obtainable(s, app, f)))
            && (r.Ok? ==>
                  && r.value.functions.Keys == u.functions.Keys + (if HasAppFunctions(s, app) then Names(live) else {})
                  && (forall f <- u.functions :: f !in Names(live) ==> r.value.functions[f] == acc.functions[f])
                  && (forall f <- live :: f.name in r.value.functions ==>
                        && (HasAppFunctions(s, app) || f.name in s.functions)
                        && r.value.functions[f.name] == WalkedRow(s, app, f)))
  {
    u := FunctionService.WithoutFunctions(s, Undeclared(s, app, fs));
    acc := Pending(Detached(u, app), false);
    LiveIsPrefix(fs);
    WalkEndsEarly(u, app, fs, acc);
    hide AssignFunctions, Live, HeldBy, HeldTwice;
    var live := Live(fs);
    assert forall f <- live :: AddsOnce(u, app, f.body.permissions) <==> AddsOnce(s, app, f.body.permissions);
    if HasAppFunctions(u, app) {
      AssignedAt(u, app, live, acc);
      if AssignFunctions(u, app, live, acc).Ok? {
        AssignedOnce(u, app, live, acc);
      }
    } else {
      EmptiedAt(u, app, live, acc);
    }
  }

  /** The list is accepted exactly when every permission the walk meets is a permission of the
      application, held by one of its application functions only and named once in the function. */
  lemma ApplicationIff(s: Store, d: Entry<FunctionList>)
    requires DistinctNames(d.body)
    ensures AfterApplication(s, d).Ok? <==>
              (d.name in s.applications && HasAppFunctions(s, d.name) ==>
                  forall f <- Live(d.body) :: Obtainable(s, d.name, f))
  {
    hide AssignFunctions, Obtainable;
    var _, _ := Walked(s, d.name, d.body);
  }

  /** The application then has exactly the declared functions the walk reached. */
  lemma ApplicationApplied(s: Store, d: Entry<FunctionList>, t: Store)
    requires DistinctNames(d.body) && AfterApplication(s, d) == Ok(t)
    ensures ApplicationHolds(t, d.name, d.body)
  {
    hide AssignFunctions, Live, HeldBy, HeldTwice, HasAppFunctions;
    if d.name in s.applications && d.body != [] {
      var _, _ := Walked(s, d.name, d.body);
      SameAppFunctions(s, t, d.name);
      hide Obtainable;
    }
  }

  lemma SameAppFunctions(s: Store, t: Store, app: Name)
    requires t.appFunctions == s.appFunctions
    ensures HasAppFunctions(t, app) <==> HasAppFunctions(s, app)
    ensures forall f :: Obtainable(t, app, f) <==> Obtainable(s, app, f)
  {
  }

  /** A stored function that is on the list, but that the walk does not reach, is taken from the application
      and otherwise as it was. */
  lemma UnreachedIsDetached(s: Store, d: Entry<FunctionList>, t: Store, f: Name)
    requires DistinctNames(d.body) && AfterApplication(s, d) == Ok(t) && d.name in s.applications
    requires f in s.functions && f in Names(d.body) && f !in Names(Live(d.body))
    ensures f in t.functions
    ensures t.functions[f] == s.functions[f].(application :=
              if s.functions[f].application == Some(d.name) then None else s.functions[f].application)
  {
    hide AssignFunctions, Live, HasAppFunctions;
    var _, _ := Walked(s, d.name, d.body);
  }

  lemma {:induction false} AssignError(s: Store, app: Name, fs: FunctionList, acc: Pending)
    requires AssignFunctions(s, app, fs, acc).Err?
    ensures var e := AssignFunctions(s, app, fs, acc).error;
            && e.NotFound? && e.item !in HeldBy(s.appFunctions, app)
            && exists f <- Live(fs) :: e.item in f.body.permissions
    decreases |fs|
  {
    hide HeldBy, AddsOnce;
    var f, live := fs[0], Live(fs);
    assert live == [f] + Live(fs[1..]);
    if !HasAppFunctions(s, app) {
      AssignError(s, app, fs[1..], PutEmpty(s, app, acc, f));
    } else if CheckPresent(HeldBy(s.appFunctions, app), f.body.permissions).Pass? {
      AssignError(s, app, fs[1..], PutRow(s, app, acc, f));
    } else {
      assert f in live;
    }
    assert forall g <- Live(fs[1..]) :: g in live;
  }

  /** A list is refused for a permission that the walk meets and the application does not hold, and only if
      there is none for a row that would be added twice. */
  lemma ApplicationRefused(s: Store, d: Entry<FunctionList>)
    requires DistinctNames(d.body) && AfterApplication(s, d).Err?
    ensures var e := AfterApplication(s, d).error;
            if forall f <- Live(d.body) :: Elements(f.body.permissions) <= HeldBy(s.appFunctions, d.name) then
              e == Conflict(d.name)
            else
              && e.NotFound? && e.item !in HeldBy(s.appFunctions, d.name)
              && exists f <- Live(d.body) :: e.item in f.body.permissions
  {
    hide Live, HeldBy;
    var t := FunctionService.WithoutFunctions(s, Undeclared(s, d.name, d.body));
    var acc := Pending(Detached(t, d.name), false);
    WalkEndsEarly(t, d.name, d.body, acc);
    LiveIsPrefix(d.body);
    SameAppFunctions(s, t, d.name);
    if HasAppFunctions(t, d.name) {
      AssignedAt(t, d.name, Live(d.body), acc);
    } else {
      EmptiedAt(t, d.name, Live(d.body), acc);
    }
    if AssignFunctions(t, d.name, d.body, acc).Err? {
      AssignError(t, d.name, d.body, acc);
    }
  }

  /** Without application functions, the named functions that were stored have moved. */
  lemma ApplicationMoves(s: Store, d: Entry<FunctionList>, f: Entry<FunctionBody>, t: Store)
    requires DistinctNames(d.body) && AfterApplication(s, d) == Ok(t)
    requires d.name in s.applications && !HasAppFunctions(s, d.name) && f in Live(d.body) && f.name in s.functions
    ensures f.name in t.functions
    ensures t.functions[f.name] == Function(Moved(s, d.name, f.name), f.body.description, {})
  {
    assert d.body != [];
    hide AssignFunctions, Live, HasAppFunctions;
    var _, _ := Walked(s, d.name, d.body);
    LiveIsPrefix(d.body);
    assert f.name in Names(Live(d.body));
  }

  /** A list that holds is accepted again, and only moves functions. */
  lemma ApplicationAccepted(s: Store, d: Entry<FunctionList>)
    requires DistinctNames(d.body) && ApplicationHolds(s, d.name, d.body)
    ensures AfterApplication(s, d).Ok?
    ensures var t := AfterApplication(s, d).value;
            t == s.(functions := t.functions) && t.functions.Keys == s.functions.Keys
    ensures NothingMoves(s, d.name, d.body) ==> AfterApplication(s, d) == Ok(s)
  {
    hide AssignFunctions, Live, Obtainable, HasAppFunctions;
    if d.name in s.applications && d.body != [] {
      var u, acc := Walked(s, d.name, d.body);
      assert Undeclared(s, d.name, d.body) == {};
      FunctionsNothing(s);
      if NothingMoves(s, d.name, d.body) {
        assert AssignFunctions(s, d.name, d.body, acc).value.functions == s.functions;
      }
    }
  }

  lemma UnnamedStay(s: Store, e: Entry<FunctionList>, t: Store, f: Name)
    requires DistinctNames(e.body) && AfterApplication(s, e) == Ok(t)
    requires e.name in s.applications && e.body != []
    ensures t == s.(functions := t.functions, roles := t.roles) && t.roles.Keys == s.roles.Keys
    ensures f in s.functions && s.functions[f].application != Some(e.name) && f !in Names(e.body) ==>
              f in t.functions && t.functions[f] == s.functions[f]
    ensures f in t.functions && f !in Names(e.body) ==> f in s.functions
    ensures f in t.functions && t.functions[f].application.Some? && t.functions[f].application.value != e.name ==>
              f in s.functions && s.functions[f].application == t.functions[f].application
  {
    hide AssignFunctions, Live, HasAppFunctions, Obtainable;
    var _, _ := Walked(s, e.name, e.body);
  }

  /** What a list does to functions it does not name. */
  lemma ApplicationFrame(s: Store, e: Entry<FunctionList>, t: Store)
    requires DistinctNames(e.body) && AfterApplication(s, e) == Ok(t)
    ensures t == s.(functions := t.functions, roles := t.roles) && t.roles.Keys == s.roles.Keys
    ensures forall f <- s.functions :: s.functions[f].application != Some(e.name) && f !in Names(e.body) ==>
              f in t.functions && t.functions[f] == s.functions[f]
    ensures forall f <- t.functions :: f !in Names(e.body) ==> f in s.functions
    ensures forall f <- t.functions ::
              t.functions[f].application.Some? && t.functions[f].application.value != e.name ==>
              f in s.functions && s.functions[f].application == t.functions[f].application
  {
    if e.name in s.applications && e.body != [] {
      UnnamedStay(s, e, t, "");
      forall f | f in s.functions || f in t.functions
        ensures f in s.functions && s.functions[f].application != Some(e.name) && f !in Names(e.body) ==>
                  f in t.functions && t.functions[f] == s.functions[f]
        ensures f in t.functions && f !in Names(e.body) ==> f in s.functions
        ensures f in t.functions && t.functions[f].application.Some? && t.functions[f].application.value != e.name ==>
                  f in s.functions && s.functions[f].application == t.functions[f].application
      {
        UnnamedStay(s, e, t, f);
      }
    }
  }

  /** A role keeps exactly those of its functions that the list has not deleted: the ones of the application
      that it does not name. */
  lemma RolesAfterApplication(s: Store, e: Entry<FunctionList>, t: Store, r: Name, f: Name)
    requires AfterApplication(s, e) == Ok(t) && r in s.roles
    ensures r in t.roles && t.roles[r] == s.roles[r].(functions := t.roles[r].functions)
    ensures f in t.roles[r].functions <==>
              && f in s.roles[r].functions
              && !(e.name in s.applications && e.body != [] && f in s.functions
                   && s.functions[f].application == Some(e.name) && f !in Names(e.body))
  {
    hide AssignFunctions, Names;
    FunctionService.WithoutFunctionsLeaves(s, Undeclared(s, e.name, e.body));
    hide FunctionService.WithoutFunctions;
  }

  // ---- a new function that is named twice ----

  lemma {:induction false} TwiceStays(s: Store, app: Name, fs: FunctionList, acc: Pending)
    requires acc.twice
    ensures AssignFunctions(s, app, fs, acc).Ok? ==> AssignFunctions(s, app, fs, acc).value.twice
    decreases |fs|
  {
    if fs != [] && fs[0].body.permissions != [] {
      hide HeldBy, HeldTwice;
      if HasAppFunctions(s, app) {
        TwiceStays(s, app, fs[1..], Put(s, acc, fs[0].name, Function(Some(app), fs[0].body.description,
            Elements(fs[0].body.permissions)), AddsOnce(s, app, fs[0].body.permissions)));
      } else {
        TwiceStays(s, app, fs[1..], PutEmpty(s, app, acc, fs[0]));
      }
    }
  }

  lemma {:induction false} NewTwice(s: Store, app: Name, fs: FunctionList, acc: Pending, j: nat)
    requires HasAppFunctions(s, app) && j < |fs| && fs[j].name in acc.functions && fs[j].name !in s.functions
    requires forall i :: 0 <= i <= j ==> fs[i].body.permissions != []
    ensures AssignFunctions(s, app, fs, acc).Ok? ==> AssignFunctions(s, app, fs, acc).value.twice
    decreases |fs|
  {
    hide HeldBy, HeldTwice, HasAppFunctions;
    var put := Put(s, acc, fs[0].name, Function(Some(app), fs[0].body.description, Elements(fs[0].body.permissions)),
                   AddsOnce(s, app, fs[0].body.permissions));
    if j == 0 {
      TwiceStays(s, app, fs[1..], put);
    } else {
      NewTwice(s, app, fs[1..], put, j - 1);
    }
  }

  lemma {:induction false} NamedTwice(s: Store, app: Name, fs: FunctionList, acc: Pending, i: nat, j: nat)
    requires HasAppFunctions(s, app) && i < j < |fs| && fs[i].name == fs[j].name && fs[j].name !in s.functions
    requires forall k :: 0 <= k <= j ==> fs[k].body.permissions != []
    ensures AssignFunctions(s, app, fs, acc).Ok? ==> AssignFunctions(s, app, fs, acc).value.twice
    decreases |fs|
  {
    hide HeldBy, HeldTwice, HasAppFunctions;
    var put := Put(s, acc, fs[0].name, Function(Some(app), fs[0].body.description, Elements(fs[0].body.permissions)),
                   AddsOnce(s, app, fs[0].body.permissions));
    if i == 0 {
      NewTwice(s, app, fs[1..], put, j - 1);
    } else {
      NamedTwice(s, app, fs[1..], put, i - 1, j - 1);
    }
  }

  /** A list whose walk meets a function twice that is not stored is refused. */
  lemma NewFunctionTwiceIsRefused(s: Store, d: Entry<FunctionList>, i: nat, j: nat)
    requires d.name in s.applications && HasAppFunctions(s, d.name)
    requires i < j < |d.body| && d.body[i].name == d.body[j].name && d.body[j].name !in s.functions
    requires forall k :: 0 <= k <= j ==> d.body[k].body.permissions != []
    ensures AfterApplication(s, d).Err?
  {
    var t := FunctionService.WithoutFunctions(s, Undeclared(s, d.name, d.body));
    SameAppFunctions(s, t, d.name);
    NamedTwice(t, d.name, d.body, Pending(Detached(t, d.name), false), i, j);
  }

  /** Another application's list, naming other functions, leaves these functions alone. */
  lemma ApplicationKept(s: Store, app: Name, fs: FunctionList, e: Entry<FunctionList>, t: Store)
    requires DistinctNames(e.body) && AfterApplication(s, e) == Ok(t)
    requires ApplicationHolds(s, app, fs) && app != e.name && Names(fs) !! Names(e.body)
    ensures ApplicationHolds(t, app, fs)
  {
    LiveIsPrefix(fs);
    ApplicationFrame(s, e, t);
  }

  // ---- what every list keeps ----

  /** Functions in memory refer to stored rows and to permissions of their application. */
  predicate Fine(s: Store, m: map<Name, Function>, covered: bool) {
    forall f <- m ::
      && m[f].permissions <= s.permissions.Keys
      && (m[f].application.Some? ==> m[f].application.value in s.applications)
      && (covered && m[f].application.Some? ==> m[f].permissions <= HeldBy(s.appFunctions, m[f].application.value))
  }

  lemma {:induction false} AssignKeepsFine(s: Store, app: Name, fs: FunctionList, acc: Pending, covered: bool)
    requires WellFormed(s) && app in s.applications && Fine(s, acc.functions, covered)
    requires AssignFunctions(s, app, fs, acc).Ok?
    ensures Fine(s, AssignFunctions(s, app, fs, acc).value.functions, covered)
    ensures acc.functions.Keys <= AssignFunctions(s, app, fs, acc).value.functions.Keys
    decreases |fs|
  {
    if fs != [] && fs[0].body.permissions != [] {
      if HasAppFunctions(s, app) {
        assert HeldBy(s.appFunctions, app) <= s.permissions.Keys;
        AssignKeepsFine(s, app, fs[1..], PutRow(s, app, acc, fs[0]), covered);
      } else {
        AssignKeepsFine(s, app, fs[1..], PutEmpty(s, app, acc, fs[0]), covered);
      }
    }
  }

  lemma PutFunctionsKeeps(s: Store, m: map<Name, Function>, covered: bool)
    requires Sound(s) && Fine(s, m, covered) && s.functions.Keys <= m.Keys
    ensures Sound(s.(functions := m)) && (covered ==> FunctionsCovered(s.(functions := m)))
  {
    var t := s.(functions := m);
    assert RoleGraph(t) == RoleGraph(s) && TeamGraph(t) == TeamGraph(s);
  }

  lemma ApplicationKeeps(s: Store, d: Entry<FunctionList>, t: Store)
    requires Sound(s) && AfterApplication(s, d) == Ok(t)
    ensures Sound(t) && (FunctionsCovered(s) ==> FunctionsCovered(t))
    ensures t == s.(functions := t.functions, roles := t.roles)
  {
    if d.name in s.applications && d.body != [] {
      var gone := Undeclared(s, d.name, d.body);
      FunctionService.WithoutFunctionsKeeps(s, gone);
      var u := FunctionService.WithoutFunctions(s, gone);
      var acc := Pending(Detached(u, d.name), false);
      AssignKeepsFine(u, d.name, d.body, acc, FunctionsCovered(s));
      PutFunctionsKeeps(u, t.functions, FunctionsCovered(s));
    }
  }

  lemma {:induction false} ApplicationsKeep(s: Store, ds: seq<Entry<FunctionList>>, t: Store)
    requires Sound(s) && AfterApplications(s, ds) == Ok(t)
    ensures Sound(t) && (FunctionsCovered(s) ==> FunctionsCovered(t))
    ensures t == s.(functions := t.functions, roles := t.roles)
    decreases |ds|
  {
    if ds != [] {
      var u := AfterApplication(s, ds[0]).value;
      ApplicationKeeps(s, ds[0], u);
      ApplicationsKeep(u, ds[1..], t);
    }
  }

  // ---- lists of applications ----

  predicate Separate(ds: seq<Entry<FunctionList>>) {
    && DistinctNames(ds)
    && (forall d <- ds :: DistinctNames(d.body))
    && (forall i, j :: 0 <= i < j < |ds| ==> Names(ds[i].body) !! Names(ds[j].body))
  }

  lemma {:induction false} ApplicationsLeave(s: Store, app: Name, fs: FunctionList, ds: seq<Entry<FunctionList>>,
                                             t: Store)
    requires ApplicationHolds(s, app, fs) && AfterApplications(s, ds) == Ok(t)
    requires forall e <- ds :: DistinctNames(e.body) && app != e.name && Names(fs) !! Names(e.body)
    ensures ApplicationHolds(t, app, fs)
    decreases |ds|
  {
    if ds != [] {
      var u := AfterApplication(s, ds[0]).value;
      ApplicationKept(s, app, fs, ds[0], u);
      ApplicationsLeave(u, app, fs, ds[1..], t);
    }
  }

  lemma {:induction false} ApplicationsApplied(s: Store, ds: seq<Entry<FunctionList>>, t: Store)
    requires AfterApplications(s, ds) == Ok(t) && Separate(ds)
    ensures forall d <- ds :: ApplicationHolds(t, d.name, d.body)
    decreases |ds|
  {
    if ds != [] {
      var u := AfterApplication(s, ds[0]).value;
      assert ds == [ds[0]] + ds[1..];
      ApplicationApplied(s, ds[0], u);
      ApplicationsLeave(u, ds[0].name, ds[0].body, ds[1..], t);
      ApplicationsApplied(u, ds[1..], t);
    }
  }

  predicate NothingMovesIn(s: Store, ds: seq<Entry<FunctionList>>) {
    forall d <- ds :: NothingMoves(s, d.name, d.body)
  }

  lemma {:induction false} ApplicationsFixed(s: Store, ds: seq<Entry<FunctionList>>)
    requires forall d <- ds :: DistinctNames(d.body) && ApplicationHolds(s, d.name, d.body)
    requires NothingMovesIn(s, ds)
    ensures AfterApplications(s, ds) == Ok(s)
    decreases |ds|
  {
    if ds != [] {
      hide AfterApplication;
      ApplicationAccepted(s, ds[0]);
      ApplicationsFixed(s, ds[1..]);
    }
  }

  // ---- applying the lists again ----

  lemma {:induction false} ApplicationsAccepted(s: Store, ds: seq<Entry<FunctionList>>)
    requires Separate(ds) && forall d <- ds :: ApplicationHolds(s, d.name, d.body)
    ensures AfterApplications(s, ds).Ok?
    ensures var t := AfterApplications(s, ds).value;
            t == s.(functions := t.functions) && t.functions.Keys == s.functions.Keys
    decreases |ds|
  {
    if ds != [] {
      hide AfterApplication, ApplicationHolds;
      ApplicationAccepted(s, ds[0]);
      var t := AfterApplication(s, ds[0]).value;
      forall i | 1 <= i < |ds| ensures ApplicationHolds(t, ds[i].name, ds[i].body) {
        ApplicationKept(s, ds[i].name, ds[i].body, ds[0], t);
      }
      ApplicationsAccepted(t, ds[1..]);
    }
  }

  /** A function that is nobody's, or the application's, is left alone by other applications' lists. */
  lemma {:induction false} OthersLeaveFunction(s: Store, app: Name, f: Name, ds: seq<Entry<FunctionList>>, t: Store)
    requires AfterApplications(s, ds) == Ok(t) && f in s.functions && s.functions[f].application in {None, Some(app)}
    requires forall e <- ds :: DistinctNames(e.body) && e.name != app && f !in Names(e.body)
    ensures f in t.functions && t.functions[f] == s.functions[f]
    decreases |ds|
  {
    if ds != [] {
      hide AfterApplication;
      ApplicationFrame(s, ds[0], AfterApplication(s, ds[0]).value);
      OthersLeaveFunction(AfterApplication(s, ds[0]).value, app, f, ds[1..], t);
    }
  }

  lemma {:induction false} FunctionMoves(s: Store, ds: seq<Entry<FunctionList>>, d: Entry<FunctionList>,
                                         f: Entry<FunctionBody>, t: Store)
    requires Separate(ds) && AfterApplications(s, ds) == Ok(t)
    requires d in ds && d.name in s.applications && !HasAppFunctions(s, d.name) && f in Live(d.body)
    requires f.name in s.functions && s.functions[f.name].application in {None, Some(d.name)}
    ensures f.name in t.functions && t.functions[f.name].application != s.functions[f.name].application
    decreases |ds|
  {
    hide AfterApplication, Live;
    var e, u := ds[0], AfterApplication(s, ds[0]).value;
    LiveIsPrefix(d.body);
    assert f.name in Names(d.body);
    var k :| 0 <= k < |ds| && ds[k] == d;
    ApplicationFrame(s, e, u);
    if k == 0 {
      ApplicationMoves(s, d, f, u);
      OthersLeaveFunction(u, d.name, f.name, ds[1..], t);
    } else {
      assert ds[1..][k - 1] == d;
      FunctionMoves(u, ds[1..], d, f, t);
    }
  }

  /** Applying the lists again succeeds, and changes nothing exactly when none of them moves a stored
      function. */
  lemma ApplicationsAgainIff(s: Store, ds: seq<Entry<FunctionList>>, a: Store, t: Store)
    requires Separate(ds) && AfterApplications(s, ds) == Ok(a)
    requires a.functions == t.functions && a.applications == t.applications && a.appFunctions == t.appFunctions
    ensures AfterApplications(t, ds).Ok?
    ensures var v := AfterApplications(t, ds).value;
            && v == t.(functions := v.functions) && v.functions.Keys == t.functions.Keys
            && (v == t <==> NothingMovesIn(t, ds))
  {
    hide AfterApplications;
    ApplicationsApplied(s, ds, a);
    forall d <- ds ensures ApplicationHolds(t, d.name, d.body) {
      assert ApplicationHolds(a, d.name, d.body);
    }
    ApplicationsAccepted(t, ds);
    if NothingMovesIn(t, ds) {
      ApplicationsFixed(t, ds);
    } else {
      var d :| d in ds && !NothingMoves(t, d.name, d.body);
      var f :| f in Live(d.body) && f.name in t.functions;
      FunctionMoves(t, ds, d, f, AfterApplications(t, ds).value);
    }
  }
}
