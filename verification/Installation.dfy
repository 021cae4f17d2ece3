/** The store of a new installation, and what a restart can do to it. */
module Installation {
  import opened Results
  import opened Entries
  import opened Model
  import opened Invariants
  import opened Bootstrap
  import FunctionService
  import opened SecurityContractApplication
  import opened ApplicationConvergence
  import opened ApplicationInvariants
  import opened ContractExport
  import opened ContractReapply
  import opened ContractRestore
  import SecurityContract
  import opened Runs
  import Levels
  import opened Coverage
  import RunExports

  /** Everything that the statements on runs ask of the store a run begins with. */
  ghost predicate Qualified(s: Store) {
    && Sound(s) && FunctionsCovered(s) && Unshared(s)
    && Linked(s) && Flat(s)
    && UsersTrimmed(s) && NoOwnChildren(s)
  }

  lemma EmptyQualifies()
    ensures Qualified(EMPTY)
  {
    EmptyIsSound();
  }

  /** A safe start keeps all of it. */
  lemma BootstrapKeepsQualified(s: Store, texts: Texts, created: bool, t: Store)
    requires Qualified(s) && SafeStart(s) && AfterBootstrap(s, texts, created) == Ok(t)
    ensures Qualified(t)
  {
    hide AfterBootstrap, SafeStart, Sound, Linked, Flat, UsersTrimmed, FunctionsCovered, Unshared;
    SoundIsWellFormed(s);
    BootstrapKeepsSoundIff(s, texts, created, t);
    RowsAfterBootstrap(s, texts, created, t);
    Levels.RestartInGraph(s, texts, created, t);
    RunExports.RestartStaysTrimmed(s, texts, created, t);
    NewRoleIsNotItsChild(s, texts, created, t);
  }

  lemma NewRoleIsNotItsChild(s: Store, texts: Texts, created: bool, t: Store)
    requires NoOwnChildren(s) && AfterBootstrap(s, texts, created) == Ok(t)
    ensures NoOwnChildren(t)
  {
    hide AfterBootstrap, ROLE, ADMIN, FUNCTION;
    BootstrapFrame(s, texts, created, t);
  }

  /** The store with which a new installation meets its first request. */
  lemma FirstStartQualifies(texts: Texts, created: bool)
    ensures AfterBootstrap(EMPTY, texts, created).Ok? && Qualified(AfterBootstrap(EMPTY, texts, created).value)
  {
    EmptyQualifies();
    BootstrapKeepsQualified(EMPTY, texts, created, AfterBootstrap(EMPTY, texts, created).value);
  }

  // ---- restoring onto a new installation ----

  /** The rows of the first start are still there, where they were and as they were described. */
  predicate KeepsFirstRows(s: Store, texts: Texts, created: bool) {
    && APPLICATION in s.applications
    && APP_FUNCTION in s.appFunctions && s.appFunctions[APP_FUNCTION].application == APPLICATION
    && UPDATE in s.permissions && s.permissions[UPDATE] == texts.update
    && READ in s.permissions && s.permissions[READ] == texts.read
    && FUNCTION in s.functions && s.functions[FUNCTION].application == Some(APPLICATION)
    && ROLE in s.roles && (created ==> ADMIN in LiveUsers(s))
  }

  lemma FirstStartIsWithin(texts: Texts, created: bool, b: Store, s: Store)
    requires AfterBootstrap(EMPTY, texts, created) == Ok(b) && KeepsFirstRows(s, texts, created)
    ensures Within(b, s)
  {
    hide APPLICATION, APP_FUNCTION, FUNCTION, UPDATE, READ, ROLE, ADMIN, ADMIN_PROFILE;
  }

  /** In a run from a new installation, a contract exported from a one-level state that still has the
      rows of the first start rebuilds that state on another new installation, exactly when it can be
      reapplied, everything in it is carried, and the order of the applications is right. */
  lemma RunsRestoreOntoInstallationIff(texts: Texts, created: bool, trace: seq<Store>, requests: seq<Request>, i: nat,
                                       c: SecurityContract.Contract)
    requires IsRun(trace, requests) && i < |trace| && AfterBootstrap(EMPTY, texts, created) == Ok(trace[0])
    requires forall k :: 0 <= k < |requests| ==> StartsSafely(trace[k], requests[k])
    requires IsExport(trace[i], c) && Flat(trace[i]) && KeepsFirstRows(trace[i], texts, created)
    ensures SecurityContract.AfterContract(trace[0], c) == Ok(RegisteredOnto(trace[0], trace[i])) <==>
              Reappliable(trace[i]) && Carried(trace[i]) && HeldOnceOnto(trace[0], trace[i], c.applications)
  {
    hide AfterBootstrap, IsExport, Flat, KeepsFirstRows, Reappliable, Carried, HeldOnceOnto, Within, StartsSafely, Step;
    hide SecurityContract.AfterContract, RegisteredOnto, Sound, UsersTrimmed;
    FirstStartQualifies(texts, created);
    RunExports.RunsStayTrimmed(trace, requests, i);
    FirstStartIsWithin(texts, created, trace[0], trace[i]);
    RestoreOntoIff(trace[0], trace[i], c);
  }

  // ---- a restart that is not safe ----

  function Uses(name: Name): FunctionService.FunctionSubmit {
    FunctionService.FunctionSubmit(name, "", APPLICATION, [UPDATE])
  }

  /** The permissions that a start makes when it is not safe cannot be given to any function: the check
      of a submitted permission meets an empty list. */
  lemma RestartBreaksFirst(s: Store, texts: Texts, created: bool, t: Store, first: FunctionService.FirstRows,
                           name: Name)
    requires Sound(s) && !SafeStart(s) && AfterBootstrap(s, texts, created) == Ok(t)
    requires FunctionService.ListsFirst(t, first) && name !in t.functions
    ensures FunctionService.AfterCreate(t, first, Uses(name)) == Err(EmptySequence(UPDATE))
  {
    hide APPLICATION, APP_FUNCTION, FUNCTION, UPDATE, READ, ROLE, ADMIN, ADMIN_PROFILE, Acyclic, AfterRole, AfterAdmin;
    SoundIsWellFormed(s);
    assert UPDATE !in Held(s.appFunctions);
    RoleIsThere(AfterFunction(s, texts, false).value, texts);
    AdminIsThere(AfterRole(AfterFunction(s, texts, false).value, texts), created);
    assert t.appFunctions == s.appFunctions;
    assert UPDATE in t.permissions && APPLICATION in t.applications;
  }

  /** The declaration of the application with nothing in it. */
  const EMPTIED: ApplicationDecl := Entry(APPLICATION, ApplicationBody([], []))

  lemma NothingDeclared(s: Store) returns (u: Store)
    requires Sound(s) && forall f <- s.appFunctions :: s.appFunctions[f].application == APPLICATION
    ensures AfterApply(s, EMPTIED) == Ok(u) && Sound(u)
    ensures u.appFunctions.Keys == {} && u.permissions.Keys == {} && u.functions.Keys == s.functions.Keys
    ensures APPLICATION in u.applications
  {
    hide AfterApply, APPLICATION, Acyclic;
    AcceptedIff(s, EMPTIED);
    u := AfterApply(s, EMPTIED).value;
    ApplyConverges(s, EMPTIED, u);
    ApplyKeepsSound(s, EMPTIED, u);
    ApplyLeaves(s, EMPTIED, u);
    FunctionsAfterApply(s, EMPTIED, u);
    assert Held(u.appFunctions) == {};
  }

  lemma FunctionDeleted(u: Store, target: Name) returns (s: Store)
    requires Sound(u) && target in u.functions && u.appFunctions.Keys == {}
    ensures Step(u, DeleteFunction(target), s) && Sound(s)
    ensures s.functions == u.functions - {target} && s.applications == u.applications
    ensures s.permissions == u.permissions && s.appFunctions == u.appFunctions
  {
    hide Sound;
    s := FunctionService.WithoutFunctions(u, {target});
    FunctionService.WithoutFunctionsKeeps(u, {target});
    assert FunctionService.ListsFirst(u, map[]);
    assert Answer(u, map[], DeleteFunction(target)) == Ok(s);
  }

  lemma Restarted(s: Store, texts: Texts, created: bool) returns (t: Store)
    requires APPLICATION in s.applications && s.functions.Keys == {}
    requires s.permissions.Keys == {} && s.appFunctions.Keys == {}
    ensures !SafeStart(s) && AfterBootstrap(s, texts, created) == Ok(t)
    ensures Step(s, Restart(texts, created), t) && t.functions.Keys == {FUNCTION}
  {
    hide APPLICATION, APP_FUNCTION, FUNCTION, UPDATE, READ, ROLE, ADMIN, ADMIN_PROFILE, AfterRole, AfterAdmin;
    var f := AfterFunction(s, texts, false).value;
    RoleIsThere(f, texts);
    AdminIsThere(AfterRole(f, texts), created);
    t := AfterBootstrap(s, texts, created).value;
    assert FunctionService.ListsFirst(s, map[]);
    assert Answer(s, map[], Restart(texts, created)) == Ok(t);
  }

  lemma FirstStartRows(texts: Texts, created: bool, b: Store)
    requires AfterBootstrap(EMPTY, texts, created) == Ok(b)
    ensures b.functions.Keys == {FUNCTION} && forall f <- b.appFunctions :: b.appFunctions[f].application == APPLICATION
  {
    hide APPLICATION, APP_FUNCTION, FUNCTION, UPDATE, READ, ROLE, ADMIN, ADMIN_PROFILE, AfterRole, AfterAdmin;
    var a := AfterApplication(EMPTY, texts).value;
    var f := AfterFunction(a, texts, true).value;
    RoleIsThere(f, texts);
    AdminIsThere(AfterRole(f, texts), created);
  }

  /** Such a restart can be reached from a new installation: a contract empties the application, its
      function is deleted, the service starts again; then `First()` fails. */
  lemma SomeRestartBreaksFirst(texts: Texts, created: bool) returns (trace: seq<Store>, requests: seq<Request>)
    ensures IsRun(trace, requests) && AfterBootstrap(EMPTY, texts, created) == Ok(trace[0]) && |requests| == 3
    ensures requests[2] == Restart(texts, created) && Sound(trace[2]) && !Sound(trace[3])
    ensures forall first :: FunctionService.ListsFirst(trace[3], first) ==>
              FunctionService.AfterCreate(trace[3], first, Uses("f")) == Err(EmptySequence(UPDATE))
  {
    hide AfterBootstrap, AfterApply, Sound, Step, SafeStart, FunctionService.AfterCreate, FunctionService.ListsFirst;
    FirstStartQualifies(texts, created);
    var b := AfterBootstrap(EMPTY, texts, created).value;
    FirstStartRows(texts, created, b);
    var u := NothingDeclared(b);
    OneDeclared(b, EMPTIED, u);
    var s := FunctionDeleted(u, FUNCTION);
    assert s.functions.Keys == {};
    var t := Restarted(s, texts, created);
    BootstrapKeepsSoundIff(s, texts, created, t);
    trace := [b, u, s, t];
    requests := [ApplyContract(SecurityContract.Contract([EMPTIED], [])), DeleteFunction(FUNCTION),
                 Restart(texts, created)];
    assert |FUNCTION| != |"f"|;
    forall first | FunctionService.ListsFirst(t, first)
      ensures FunctionService.AfterCreate(t, first, Uses("f")) == Err(EmptySequence(UPDATE))
    {
      RestartBreaksFirst(s, texts, created, t, first, "f");
    }
  }
}
