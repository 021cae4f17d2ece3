/** Contracts whose second application fails, or is not without effect. */
module Counterexamples {
  import opened Results
  import opened Entries
  import opened Model
  import opened Invariants
  import FunctionService
  import opened SecurityContractApplication
  import opened SecurityContractDefaultConfiguration
  import opened ApplicationConvergence
  import opened ApplicationInvariants
  import opened ApplicationsSection
  import RolesSection
  import opened SecurityContract
  import opened Runs
  import opened Levels
  import opened Coverage

  // ---- refused the second time ----

  const PARENT := Entry("E", RoleBody("", [], ["D"]))
  const CHILD := Entry("D", RoleBody("", [], ["X"]))
  /** A role is listed as a child before it gets children itself. */
  const TWO_LEVELS: Contract := Contract([], [DefaultConfiguration([], [PARENT, CHILD], [], [])])

  lemma BothAreCompound()
    ensures RolesWhere(false, [PARENT, CHILD]) == [] && RolesWhere(true, [PARENT, CHILD]) == [PARENT, CHILD]
  {
    assert [PARENT, CHILD][1..] == [CHILD] && [CHILD][1..] == [];
    assert RolesWhere(false, [CHILD]) == RolesWhere(false, []) == [];
    assert RolesWhere(true, [CHILD]) == [CHILD] + RolesWhere(true, []) == [CHILD];
  }

  lemma TwoLevelsAccepted(s: Store) returns (t: Store)
    requires "D" in s.roles && s.roles["D"].children == {} && "X" in s.roles && s.roles["X"].children == {}
    ensures AfterContract(s, TWO_LEVELS) == Ok(t)
  {
    var ds := [PARENT, CHILD];
    assert Elements<Name>([]) == {};
    RolesSection.RoleIff(s, PARENT);
    var u := AfterRole(s, PARENT).value;
    RolesSection.RoleIff(u, CHILD);
    t := AfterRole(u, CHILD).value;
    assert ds[1..] == [CHILD] && [CHILD][1..] == [];
    BothAreCompound();
    hide AfterRole;
    assert AfterRoleList(s, []) == Ok(s) && AfterRoleList(u, [CHILD]) == AfterRoleList(t, []) == Ok(t);
    assert AfterRoleList(s, ds) == Ok(t);
    SingleSection(s, TWO_LEVELS.defaults);
  }

  lemma TwoLevelsRefused(s: Store, t: Store)
    requires Sound(s) && AfterContract(s, TWO_LEVELS) == Ok(t)
    ensures WellDeclared(TWO_LEVELS) && AfterContract(t, TWO_LEVELS).Err?
  {
    hide AfterContract, Sound;
    assert !RolesSection.NoCompoundChild([PARENT, CHILD]) by {
      assert PARENT in [PARENT, CHILD] && CHILD in [PARENT, CHILD];
    }
    assert TWO_LEVELS.defaults[0] in TWO_LEVELS.defaults;
    ContractAgainIff(s, TWO_LEVELS, t);
  }

  /** A contract that is accepted once and never again. */
  lemma SomeContractIsRefusedAgain() returns (trace: seq<Store>, requests: seq<Request>)
    ensures IsRun(trace, requests) && trace[0] == EMPTY && |requests| == 3
    ensures requests[2] == ApplyContract(TWO_LEVELS) && WellDeclared(TWO_LEVELS)
    ensures AfterContract(trace[2], TWO_LEVELS) == Ok(trace[3]) && AfterContract(trace[3], TWO_LEVELS).Err?
  {
    hide Step, AfterContract, PlainRole, Sound;
    var s1 := WithRole(EMPTY, "X", Elements([]));
    var s2 := WithRole(s1, "D", Elements([]));
    PlainRoleCreated(EMPTY, "X", []);
    PlainRoleCreated(s1, "D", []);
    assert Elements<Name>([]) == {};
    var s3 := TwoLevelsAccepted(s2);
    PlainContractStep(s2, TWO_LEVELS, s3);
    trace := [EMPTY, s1, s2, s3];
    requests := [CreateRole(PlainRole("X", [])), CreateRole(PlainRole("D", [])), ApplyContract(TWO_LEVELS)];
    EmptyIsSound();
    SoundAfter(trace, requests, 2);
    TwoLevelsRefused(s2, s3);
  }

  lemma PlainContractStep(s: Store, c: Contract, t: Store)
    requires AfterContract(s, c) == Ok(t)
    ensures Step(s, ApplyContract(c), t)
  {
    hide AfterContract;
    var first := SomeFirst(s);
    assert Answer(s, first, ApplyContract(c)) == Ok(t);
  }

  lemma SoundAfter(trace: seq<Store>, requests: seq<Request>, i: nat)
    requires IsRun(trace, requests) && i < |trace| && Sound(trace[0])
    requires forall k :: 0 <= k < |requests| ==> !requests[k].Restart?
    ensures Sound(trace[i])
  {
    hide Step, Sound;
    RunsStaySound(trace, requests, i);
  }

  // ---- accepted the second time, but not without effect ----

  /** An application without application functions. */
  const BARE: ApplicationDecl := Entry("B", ApplicationBody([], []))
  const MISPLACED: Entry<FunctionList> := Entry("B", [Entry("f", FunctionBody("", ["p"]))])
  /** "f" is a function of "A"; "B" has no application functions. */
  const MOVES: Contract := Contract([], [DefaultConfiguration([MISPLACED], [], [], [])])

  lemma MovesAccepted(s: Store) returns (t: Store)
    requires "B" in s.applications && "f" in s.functions && s.functions["f"].application == Some("A")
    requires forall g <- s.appFunctions :: s.appFunctions[g].application != "B"
    ensures AfterContract(s, MOVES) == Ok(t)
    ensures t.applications == s.applications && t.appFunctions == s.appFunctions
    ensures "f" in t.functions && t.functions["f"].application == Some("B")
  {
    hide AfterApplication, Obtainable, Live;
    assert !HasAppFunctions(s, "B") && DistinctNames(MISPLACED.body);
    ApplicationIff(s, MISPLACED);
    t := AfterApplication(s, MISPLACED).value;
    ApplicationFrame(s, MISPLACED, t);
    MisplacedIsLive();
    ApplicationMoves(s, MISPLACED, MISPLACED.body[0], t);
    assert [MISPLACED][1..] == [];
    assert AfterApplications(t, []) == Ok(t) && AfterApplications(s, [MISPLACED]) == Ok(t);
    SingleSection(s, MOVES.defaults);
  }

  lemma MisplacedIsLive()
    ensures MISPLACED.body[0] in Live(MISPLACED.body)
  {
  }

  lemma MovesAgain(s: Store, t: Store)
    requires Sound(s) && AfterContract(s, MOVES) == Ok(t)
    requires "B" in t.applications && "f" in t.functions
    requires forall g <- t.appFunctions :: t.appFunctions[g].application != "B"
    ensures WellDeclared(MOVES) && AfterContract(t, MOVES).Ok? && AfterContract(t, MOVES) != Ok(t)
  {
    hide AfterContract, Sound, Live;
    MisplacedIsLive();
    assert !HasAppFunctions(t, "B") && MISPLACED in MOVES.defaults[0].applications;
    assert !NothingMoves(t, "B", MISPLACED.body);
    assert MOVES.defaults[0] in MOVES.defaults;
    ContractAgainIff(s, MOVES, t);
  }

  lemma BareDeclared(s: Store) returns (t: Store)
    requires Sound(s) && "f" in s.functions && s.functions["f"].application == Some("A")
    requires forall g <- s.appFunctions :: s.appFunctions[g].application != "B"
    ensures AfterApply(s, BARE) == Ok(t)
    ensures "B" in t.applications && "f" in t.functions && t.functions["f"].application == Some("A")
    ensures forall g <- t.appFunctions :: t.appFunctions[g].application != "B"
  {
    hide AfterApply, Acyclic;
    AcceptedIff(s, BARE);
    t := AfterApply(s, BARE).value;
    ApplyConverges(s, BARE, t);
    ApplyLeaves(s, BARE, t);
    FunctionsAfterApply(s, BARE, t);
  }

  /** A contract that is accepted any number of times and moves a function every time. */
  lemma SomeContractMovesAgain() returns (trace: seq<Store>, requests: seq<Request>)
    ensures IsRun(trace, requests) && trace[0] == EMPTY && |requests| == 4
    ensures requests[3] == ApplyContract(MOVES) && WellDeclared(MOVES)
    ensures AfterContract(trace[3], MOVES) == Ok(trace[4])
    ensures AfterContract(trace[4], MOVES).Ok? && AfterContract(trace[4], MOVES) != Ok(trace[4])
  {
    hide Step, AfterContract, AfterApply, FunctionService.AfterCreate, FunctionService.ListsFirst, Sound;
    EmptyIsSound();
    var s1, s2, first := FunctionInUse(EMPTY);
    OneDeclared(EMPTY, A_HOLDS, s1);
    FunctionStep(s1, first, USES, s2);
    var s3 := BareDeclared(s2);
    OneDeclared(s2, BARE, s3);
    var s4 := MovesAccepted(s3);
    PlainContractStep(s3, MOVES, s4);
    trace := [EMPTY, s1, s2, s3, s4];
    requests := [ApplyContract(Contract([A_HOLDS], [])), CreateFunction(USES), ApplyContract(Contract([BARE], [])),
                 ApplyContract(MOVES)];
    SoundAfter(trace, requests, 3);
    MovesAgain(s3, s4);
  }
}
