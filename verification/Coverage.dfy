/** When every permission of a business function stays a permission of the function's application. */
module Coverage {
  import opened Results
  import opened Entries
  import opened Model
  import opened Invariants
  import RoleService
  import TeamService
  import UserService
  import FunctionService
  import Bootstrap
  import opened SecurityContractApplication
  import opened ApplicationConvergence
  import opened ApplicationInvariants
  import opened SecurityContract
  import Stranding
  import opened Runs

  /** No permission is shared between two applications, before or after any declaration. */
  predicate UnsharedThroughout(s: Store, ds: seq<ApplicationDecl>)
    decreases |ds|
  {
    && Unshared(s)
    && (ds == [] || AfterApply(s, ds[0]).Err?
        || UnsharedThroughout(AfterApply(s, ds[0]).value, ds[1..]))
  }

  /** Where nothing is shared, and everything covered, nothing is stranded. */
  lemma {:induction false} UnsharedListStaysCovered(s: Store, ds: seq<ApplicationDecl>, t: Store)
    requires Sound(s) && FunctionsCovered(s) && AfterResourceServers(s, ds) == Ok(t)
    requires UnsharedThroughout(s, ds)
    ensures FunctionsCovered(t)
    decreases |ds|
  {
    if ds != [] {
      hide AfterApply, Sound, FunctionsCovered, Unshared;
      var u := AfterApply(s, ds[0]).value;
      ApplyKeepsSound(s, ds[0], u);
      UnsharedStrandsNothing(s, ds[0]);
      ApplyKeepsCoveredIff(s, ds[0], u);
      UnsharedListStaysCovered(u, ds[1..], t);
    }
  }

  // ---- runs ----

  /** A restart is safe, and an accepted contract leaves no permission stranded. */
  ghost predicate Harmless(s: Store, r: Request) {
    && StartsSafely(s, r)
    && (r.ApplyContract? && AfterContract(s, r.contract).Ok? ==> !Stranding.LeavesStranded(s, r.contract))
  }

  lemma SameFunctionsSameCover(s: Store, t: Store)
    requires FunctionsCovered(s) && t.functions == s.functions && t.appFunctions == s.appFunctions
    ensures FunctionsCovered(t)
  {
  }

  lemma AnswersKeepCoveredIff(s: Store, first: FunctionService.FirstRows, r: Request, t: Store)
    requires Sound(s) && FunctionsCovered(s) && FunctionService.ListsFirst(s, first) && Answer(s, first, r) == Ok(t)
    ensures FunctionsCovered(t) <==> Harmless(s, r)
  {
    hide Sound, FunctionsCovered, AfterContract, Stranding.LeavesStranded;
    hide Bootstrap.AfterBootstrap, Bootstrap.SafeStart;
    hide RoleService.AfterCreate, RoleService.AfterUpdate, TeamService.AfterCreate, TeamService.AfterUpdate;
    hide UserService.AfterCreate, UserService.AfterUpdate, UserService.AfterDelete;
    hide FunctionService.AfterCreate, FunctionService.AfterUpdate, FunctionService.AfterDelete;
    if r.ApplyContract? {
      Stranding.ContractCoveredIff(s, r.contract, t);
    } else if r.Restart? {
      SoundIsWellFormed(s);
      Bootstrap.RowsAfterBootstrap(s, r.texts, r.created, t);
    } else if r.CreateFunction? || r.UpdateFunction? || r.DeleteFunction? {
      FunctionAnswersKeep(s, first, r, t);
    } else {
      if r.CreateRole? || r.UpdateRole? {
        RoleAnswersKeep(s, first, r, t);
      } else if r.CreateTeam? || r.UpdateTeam? {
        TeamAnswersKeep(s, first, r, t);
      } else {
        UserAnswersKeep(s, first, r, t);
      }
      SameFunctionsSameCover(s, t);
    }
  }

  lemma StepKeepsCoveredIff(s: Store, r: Request, t: Store)
    requires Sound(s) && FunctionsCovered(s) && Step(s, r, t)
    ensures FunctionsCovered(t) <==> Harmless(s, r)
  {
    hide Sound, FunctionsCovered, Answer, AfterContract, Stranding.LeavesStranded, StartsSafely;
    var first :| FunctionService.ListsFirst(s, first)
                 && t == if Answer(s, first, r).Ok? then Answer(s, first, r).value else s;
    if Answer(s, first, r).Ok? {
      AnswersKeepCoveredIff(s, first, r, t);
    } else {
      RefusedStartIsSafe(s, first, r);
      RefusedContract(s, first, r);
    }
  }

  lemma RefusedContract(s: Store, first: FunctionService.FirstRows, r: Request)
    requires FunctionService.ListsFirst(s, first) && Answer(s, first, r).Err?
    ensures r.ApplyContract? ==> AfterContract(s, r.contract).Err?
  {
  }

  lemma {:induction false} RunsStayCovered(trace: seq<Store>, requests: seq<Request>, i: nat)
    requires IsRun(trace, requests) && i < |trace| && Sound(trace[0]) && FunctionsCovered(trace[0])
    requires forall k :: 0 <= k < i ==> Harmless(trace[k], requests[k])
    ensures Sound(trace[i]) && FunctionsCovered(trace[i])
    decreases i
  {
    hide Sound, FunctionsCovered, Step, StartsSafely, AfterContract;
    if i > 0 {
      RunsStayCovered(trace, requests, i - 1);
      assert Harmless(trace[i - 1], requests[i - 1]);
      StepKeepsSoundIff(trace[i - 1], requests[i - 1], trace[i]);
      StepKeepsCoveredIff(trace[i - 1], requests[i - 1], trace[i]);
    }
  }

  lemma {:induction false} CoveredMeansHarmless(trace: seq<Store>, requests: seq<Request>, k: nat)
    requires IsRun(trace, requests) && k < |requests| && Sound(trace[0])
    requires forall i :: 0 <= i < |trace| ==> FunctionsCovered(trace[i])
    ensures Harmless(trace[k], requests[k])
    decreases k
  {
    hide Sound, FunctionsCovered, Step, Harmless;
    forall j | 0 <= j < k ensures Harmless(trace[j], requests[j]) {
      CoveredMeansHarmless(trace, requests, j);
    }
    RunsStayCovered(trace, requests, k);
    StepKeepsCoveredIff(trace[k], requests[k], trace[k + 1]);
  }

  /** In every state of a run every permission of a business function that has an application is held
      by an application function of that application, exactly when every restart is safe and no
      contract of the run leaves a permission stranded. */
  lemma RunsStayCoveredIff(trace: seq<Store>, requests: seq<Request>)
    requires IsRun(trace, requests) && Sound(trace[0]) && FunctionsCovered(trace[0])
    ensures (forall i :: 0 <= i < |trace| ==> FunctionsCovered(trace[i])) <==>
            forall k :: 0 <= k < |requests| ==> Harmless(trace[k], requests[k])
  {
    hide Step, Sound, FunctionsCovered, Harmless;
    if forall i :: 0 <= i < |trace| ==> FunctionsCovered(trace[i]) {
      forall k | 0 <= k < |requests| ensures Harmless(trace[k], requests[k]) {
        CoveredMeansHarmless(trace, requests, k);
      }
    }
    if forall k :: 0 <= k < |requests| ==> Harmless(trace[k], requests[k]) {
      forall i | 0 <= i < |trace| ensures FunctionsCovered(trace[i]) {
        RunsStayCovered(trace, requests, i);
      }
    }
  }

  /** No permission is shared while the applications of a contract are applied, and a restart is safe. */
  predicate SharesNothing(s: Store, r: Request) {
    && StartsSafely(s, r)
    && (r.ApplyContract? ==> UnsharedThroughout(s, r.contract.applications))
  }

  lemma SharingNothingIsHarmless(s: Store, r: Request)
    requires Sound(s) && FunctionsCovered(s) && SharesNothing(s, r)
    ensures Harmless(s, r)
  {
    hide AfterResourceServers, AfterDefaultList, Sound, FunctionsCovered, Stranding.LeavesStranded, StartsSafely;
    if r.ApplyContract? && AfterContract(s, r.contract).Ok? {
      var c, t := r.contract, AfterContract(s, r.contract).value;
      var u := AfterResourceServers(s, c.applications).value;
      ResourceServersKeepSound(s, c.applications, u);
      UnsharedListStaysCovered(s, c.applications, u);
      DefaultListKeeps(u, c.defaults, t);
      Stranding.ContractCoveredIff(s, c, t);
    }
  }

  /** Runs in which no permission is ever shared between applications leave none stranded. */
  lemma {:induction false} UnsharedRunsStayCovered(trace: seq<Store>, requests: seq<Request>, i: nat)
    requires IsRun(trace, requests) && i < |trace| && Sound(trace[0]) && FunctionsCovered(trace[0])
    requires forall k :: 0 <= k < |requests| ==> SharesNothing(trace[k], requests[k])
    ensures Sound(trace[i]) && FunctionsCovered(trace[i])
  {
    hide Sound, FunctionsCovered, Step, StartsSafely, AfterContract, UnsharedThroughout;
    if i > 0 {
      UnsharedRunsStayCovered(trace, requests, i - 1);
      SharingNothingIsHarmless(trace[i - 1], requests[i - 1]);
      StepKeepsSoundIff(trace[i - 1], requests[i - 1], trace[i]);
      StepKeepsCoveredIff(trace[i - 1], requests[i - 1], trace[i]);
    }
  }

  // ---- a permission moved from one application to another ----

  const HOLDS := Entry("fa", AppFunctionBody("", [Entry("p", "")]))
  const DROPS := Entry("fa", AppFunctionBody("", []))
  const TAKES := Entry("fb", AppFunctionBody("", [Entry("p", "")]))
  const A_HOLDS: ApplicationDecl := Entry("A", ApplicationBody([HOLDS], []))
  const A_DROPS: ApplicationDecl := Entry("A", ApplicationBody([DROPS], []))
  const B_TAKES: ApplicationDecl := Entry("B", ApplicationBody([TAKES], []))
  const USES := FunctionService.FunctionSubmit("f", "", "A", ["p"])

  lemma OnePermissionAccepted(s: Store, d: ApplicationDecl) returns (u: Store)
    requires Sound(s) && d in [A_HOLDS, A_DROPS, B_TAKES]
    requires d.body.functions[0].name in s.appFunctions ==>
             s.appFunctions[d.body.functions[0].name].application == d.name
    ensures AfterApply(s, d) == Ok(u) && Matches(u, d) && OthersUntouched(s, u, d.name)
  {
    assert Distinctly(d) && Owns(s, d);
    assert NamedOnce(s, d.body.functions);
    AcceptedIff(s, d);
    u := AfterApply(s, d).value;
    ApplyConverges(s, d, u);
  }

  lemma OnePermissionHeld(d: ApplicationDecl, u: Store)
    requires d in [A_HOLDS, A_DROPS, B_TAKES] && Matches(u, d)
    ensures var f := d.body.functions[0].name;
            f in u.appFunctions && u.appFunctions[f] == AppFunction(d.name, "", if d == A_DROPS then {} else {"p"})
    ensures forall f <- u.appFunctions :: u.appFunctions[f].application == d.name ==> f == d.body.functions[0].name
  {
    assert d.body.functions[0].name in Names(d.body.functions);
    assert d != A_DROPS ==> d.body.functions[0].body.permissions == [Entry("p", "")];
  }

  lemma NobodyElseHolds(s: Store, d: ApplicationDecl)
    requires s.appFunctions.Keys == {}
    ensures !Strands(s, d)
  {
    assert forall p :: !HeldByAnother(s, d.name, p);
  }

  lemma PermissionDeclared(s: Store) returns (u: Store)
    requires Sound(s) && FunctionsCovered(s) && s.appFunctions.Keys == {} && "f" !in s.functions
    ensures AfterApply(s, A_HOLDS) == Ok(u)
    ensures Sound(u) && FunctionsCovered(u) && "f" !in u.functions && "A" in u.applications && "p" in u.permissions
    ensures u.appFunctions.Keys == {"fa"} && u.appFunctions["fa"] == AppFunction("A", "", {"p"})
  {
    hide AfterApply, Strands, Sound;
    u := OnePermissionAccepted(s, A_HOLDS);
    OnePermissionHeld(A_HOLDS, u);
    ApplyKeepsSound(s, A_HOLDS, u);
    ApplyKeepsCoveredIff(s, A_HOLDS, u);
    NobodyElseHolds(s, A_HOLDS);
    FunctionsAfterApply(s, A_HOLDS, u);
    OnePermissionStored(u);
  }

  lemma OnePermissionStored(u: Store)
    requires Sound(u) && "fa" in u.appFunctions && u.appFunctions["fa"] == AppFunction("A", "", {"p"})
    ensures "p" in u.permissions
  {
    assert "p" in u.appFunctions["fa"].permissions;
  }

  lemma OnlyRow(u: Store)
    requires u.appFunctions.Keys == {"fa"} && u.appFunctions["fa"] == AppFunction("A", "", {"p"})
    ensures Unshared(u) && FunctionService.ListsFirst(u, map["p" := "fa"])
  {
    assert "p" in u.appFunctions["fa"].permissions;
  }

  /** The store after "A" declares "fa" with the permission and "f" is created with it. */
  lemma FunctionInUse(s: Store) returns (u: Store, t: Store, first: FunctionService.FirstRows)
    requires Sound(s) && FunctionsCovered(s) && s.appFunctions.Keys == {} && "f" !in s.functions
    ensures AfterApply(s, A_HOLDS) == Ok(u)
    ensures FunctionService.ListsFirst(u, first) && FunctionService.AfterCreate(u, first, USES) == Ok(t)
    ensures Sound(t) && FunctionsCovered(t) && Unshared(u) && Unshared(t) && MovableFrom(t)
  {
    hide AfterApply, FunctionService.AfterCreate, Sound, FunctionsCovered, FunctionService.ListsFirst, Unshared;
    u := PermissionDeclared(s);
    first := map["p" := "fa"];
    OnlyRow(u);
    t := FunctionCreated(u, first);
  }

  lemma FunctionCreated(u: Store, first: FunctionService.FirstRows) returns (t: Store)
    requires Sound(u) && FunctionsCovered(u) && FunctionService.ListsFirst(u, first)
    requires "f" !in u.functions && "A" in u.applications && "p" in u.permissions
    requires u.appFunctions.Keys == {"fa"} && u.appFunctions["fa"] == AppFunction("A", "", {"p"})
    ensures FunctionService.AfterCreate(u, first, USES) == Ok(t)
    ensures Sound(t) && FunctionsCovered(t) && Unshared(t) && MovableFrom(t)
  {
    assert "p" in u.appFunctions["fa"].permissions;
    assert Elements(["p"]) == {"p"} && ["p"][1..] == [];
    assert FunctionService.CheckPermissions(u, first, "A", ["p"]).Pass?;
    t := FunctionService.AfterCreate(u, first, USES).value;
    FunctionService.WriteKeeps(u, first, USES);
  }

  predicate MovableFrom(t: Store) {
    && "f" in t.functions && t.functions["f"].application == Some("A") && t.functions["f"].permissions == {"p"}
    && t.appFunctions.Keys == {"fa"} && t.appFunctions["fa"] == AppFunction("A", "", {"p"})
  }

  lemma PermissionTaken(t: Store) returns (v: Store)
    requires Sound(t) && FunctionsCovered(t) && MovableFrom(t)
    ensures AfterApply(t, B_TAKES) == Ok(v)
    ensures Sound(v) && FunctionsCovered(v)
    ensures "f" in v.functions && v.functions["f"].application == Some("A") && "p" in v.functions["f"].permissions
    ensures v.appFunctions.Keys == {"fa", "fb"} && v.appFunctions["fa"].application == "A"
    ensures v.appFunctions["fb"] == AppFunction("B", "", {"p"})
  {
    hide AfterApply, Sound;
    v := OnePermissionAccepted(t, B_TAKES);
    OnePermissionHeld(B_TAKES, v);
    ApplyKeepsSound(t, B_TAKES, v);
    FunctionsAfterApply(t, B_TAKES, v);
    assert "p" in v.appFunctions["fb"].permissions;
    assert !Strands(t, B_TAKES) by {
      assert forall g <- t.appFunctions :: t.appFunctions[g].application == "A";
    }
    ApplyKeepsCoveredIff(t, B_TAKES, v);
  }

  lemma PermissionDropped(v: Store) returns (u: Store)
    requires Sound(v) && FunctionsCovered(v)
    requires "f" in v.functions && v.functions["f"].application == Some("A") && "p" in v.functions["f"].permissions
    requires v.appFunctions.Keys == {"fa", "fb"} && v.appFunctions["fa"].application == "A"
    requires v.appFunctions["fb"] == AppFunction("B", "", {"p"})
    ensures AfterApply(v, A_DROPS) == Ok(u) && !FunctionsCovered(u)
    ensures u.appFunctions.Keys == {"fa", "fb"} && u.appFunctions["fa"].permissions == {}
  {
    hide AfterApply, Sound, FunctionsCovered;
    u := OnePermissionAccepted(v, A_DROPS);
    OnePermissionHeld(A_DROPS, u);
    assert "p" in v.appFunctions["fb"].permissions;
    assert HeldByAnother(v, "A", "p");
    assert DeclaredPermissions(A_DROPS.body) == {};
    assert Strands(v, A_DROPS);
    ApplyKeepsCoveredIff(v, A_DROPS, u);
  }

  /** One contract moves a permission that "f" uses from "A" to "B": no permission is shared before
      or after it, but "f" of "A" is left with a permission of "B". */
  lemma MovedPermission(t: Store) returns (v: Store, u: Store)
    requires Sound(t) && FunctionsCovered(t) && MovableFrom(t)
    ensures AfterApply(t, B_TAKES) == Ok(v) && AfterApply(v, A_DROPS) == Ok(u)
    ensures Unshared(u) && !FunctionsCovered(u)
  {
    hide AfterApply, Sound, FunctionsCovered;
    v := PermissionTaken(t);
    u := PermissionDropped(v);
  }

  lemma FirstThenRest(s: Store, a: ApplicationDecl, v: Store, rest: seq<ApplicationDecl>)
    requires AfterApply(s, a) == Ok(v)
    ensures AfterResourceServers(s, [a] + rest) == AfterResourceServers(v, rest)
  {
    assert ([a] + rest)[1..] == rest;
  }

  lemma ContractStep(s: Store, ds: seq<ApplicationDecl>, t: Store)
    requires AfterResourceServers(s, ds) == Ok(t)
    ensures Step(s, ApplyContract(Contract(ds, [])), t)
  {
    hide AfterApply;
    var first := SomeFirst(s);
    assert Answer(s, first, ApplyContract(Contract(ds, []))) == Ok(t);
  }

  lemma OneDeclared(s: Store, a: ApplicationDecl, t: Store)
    requires AfterApply(s, a) == Ok(t)
    ensures Step(s, ApplyContract(Contract([a], [])), t)
  {
    hide AfterApply, Step;
    FirstThenRest(s, a, t, []);
    assert [a] + [] == [a];
    ContractStep(s, [a], t);
  }

  lemma TwoDeclared(s: Store, a: ApplicationDecl, v: Store, b: ApplicationDecl, t: Store)
    requires AfterApply(s, a) == Ok(v) && AfterApply(v, b) == Ok(t)
    ensures Step(s, ApplyContract(Contract([a, b], [])), t)
  {
    hide AfterApply, Step;
    FirstThenRest(s, a, v, [b]);
    FirstThenRest(v, b, t, []);
    assert [b] + [] == [b] && [a] + [b] == [a, b];
    ContractStep(s, [a, b], t);
  }

  lemma FunctionStep(s: Store, first: FunctionService.FirstRows, fn: FunctionService.FunctionSubmit, t: Store)
    requires FunctionService.ListsFirst(s, first) && FunctionService.AfterCreate(s, first, fn) == Ok(t)
    ensures Step(s, CreateFunction(fn), t)
  {
    hide FunctionService.AfterCreate;
    assert Answer(s, first, CreateFunction(fn)) == Ok(t);
  }

  /** It is not enough that no permission is shared in the states between the requests. */
  lemma SomeRunLosesCover() returns (trace: seq<Store>, requests: seq<Request>)
    ensures IsRun(trace, requests) && trace[0] == EMPTY && |requests| == 3
    ensures forall i :: 0 <= i < |trace| ==> Unshared(trace[i])
    ensures !FunctionsCovered(trace[3])
  {
    hide AfterApply, Sound, Step, FunctionsCovered, MovableFrom;
    hide FunctionService.AfterCreate, FunctionService.ListsFirst;
    EmptyIsSound();
    var s, t, first := FunctionInUse(EMPTY);
    var v, u := MovedPermission(t);
    OneDeclared(EMPTY, A_HOLDS, s);
    FunctionStep(s, first, USES, t);
    TwoDeclared(t, B_TAKES, v, A_DROPS, u);
    trace := [EMPTY, s, t, u];
    requests := [ApplyContract(Contract([A_HOLDS], [])), CreateFunction(USES),
                 ApplyContract(Contract([B_TAKES, A_DROPS], []))];
  }
}
