/** Runs of the whole system: requests to the services, security contracts and restarts, one after the
    other, on whatever store they find. */
module Runs {
  import opened Results
  import opened Entries
  import opened Strings
  import opened Model
  import opened Invariants
  import RoleService
  import TeamService
  import UserService
  import FunctionService
  import opened SecurityContract
  import Bootstrap

  datatype Request =
    | CreateRole(role: RoleService.RoleSubmit)
    | UpdateRole(target: Name, role: RoleService.RoleSubmit)
    | CreateTeam(team: TeamService.TeamSubmit)
    | UpdateTeam(target: Name, team: TeamService.TeamSubmit)
    | CreateUser(user: UserService.UserSubmit)
    | UpdateUser(target: Name, user: UserService.UserSubmit)
    | DeleteUser(target: Name, now: int)
    | CreateFunction(fn: FunctionService.FunctionSubmit)
    | UpdateFunction(target: Name, fn: FunctionService.FunctionSubmit)
    | DeleteFunction(target: Name)
    | ApplyContract(contract: Contract)
    | Restart(texts: Bootstrap.Texts, created: bool)

  /** What a request answers; `first` is the order in which the database happens to list rows. */
  function Answer(s: Store, first: FunctionService.FirstRows, r: Request): Result<Store>
    requires FunctionService.ListsFirst(s, first)
  {
    match r
    case CreateRole(role) => RoleService.AfterCreate(s, role)
    case UpdateRole(target, role) => RoleService.AfterUpdate(s, target, role)
    case CreateTeam(team) => TeamService.AfterCreate(s, team)
    case UpdateTeam(target, team) => TeamService.AfterUpdate(s, target, team)
    case CreateUser(user) => UserService.AfterCreate(s, user)
    case UpdateUser(target, user) => UserService.AfterUpdate(s, target, user)
    case DeleteUser(target, now) => UserService.AfterDelete(s, target, now)
    case CreateFunction(fn) => FunctionService.AfterCreate(s, first, fn)
    case UpdateFunction(target, fn) => FunctionService.AfterUpdate(s, first, target, fn)
    case DeleteFunction(target) => FunctionService.AfterDelete(s, target)
    case ApplyContract(contract) => AfterContract(s, contract)
    case Restart(texts, created) => Bootstrap.AfterBootstrap(s, texts, created)
  }

  /** A refused request leaves the store as it was. */
  ghost predicate Step(s: Store, r: Request, t: Store) {
    exists first {:trigger FunctionService.ListsFirst(s, first)} ::
      FunctionService.ListsFirst(s, first) && t == if Answer(s, first, r).Ok? then Answer(s, first, r).value else s
  }

  /** The database can always list its rows in some order. */
  lemma SomeFirst(s: Store) returns (first: FunctionService.FirstRows)
    ensures FunctionService.ListsFirst(s, first)
  {
    first := map p | p in Held(s.appFunctions) ::
        var f :| f in s.appFunctions && p in s.appFunctions[f].permissions; f;
  }

  ghost predicate IsRun(trace: seq<Store>, requests: seq<Request>) {
    && |trace| == |requests| + 1
    && forall i :: 0 <= i < |requests| ==> Step(trace[i], requests[i], trace[i + 1])
  }

  /** A restart finds what it makes its permissions for. */
  predicate StartsSafely(s: Store, r: Request) {
    r.Restart? ==> Bootstrap.SafeStart(s)
  }

  // ---- what every answer keeps ----

  /** The users' names and profiles are the same ones. */
  predicate SameProfiles(s: Store, t: Store) {
    t.users.Keys == s.users.Keys && forall u <- s.users :: t.users[u].profile == s.users[u].profile
  }

  lemma RoleAnswersKeep(s: Store, first: FunctionService.FirstRows, r: Request, t: Store)
    requires FunctionService.ListsFirst(s, first) && Answer(s, first, r) == Ok(t) && (r.CreateRole? || r.UpdateRole?)
    ensures t == s.(roles := t.roles, users := t.users) && SameProfiles(s, t)
    ensures Sound(s) ==> Sound(t)
  {
    hide Sound, RoleService.AfterRename;
    var b := if r.UpdateRole? then RoleService.AfterRename(s, r.target, r.role.name) else s;
    if r.UpdateRole? {
      RoleService.RenamedRows(s, r.target, r.role.name);
    }
    if Sound(s) {
      if r.UpdateRole? {
        RoleService.RenameKeepsSound(s, r.target, r.role.name);
      }
      RoleService.WriteKeepsSound(b, r.role.name, r.role.description, r.role.functions, r.role.roles);
    }
  }

  lemma TeamAnswersKeep(s: Store, first: FunctionService.FirstRows, r: Request, t: Store)
    requires FunctionService.ListsFirst(s, first) && Answer(s, first, r) == Ok(t) && (r.CreateTeam? || r.UpdateTeam?)
    ensures t == s.(teams := t.teams)
    ensures Sound(s) ==> Sound(t)
  {
    hide Sound, TeamService.AfterRename;
    var b := if r.UpdateTeam? then TeamService.AfterRename(s, r.target, r.team.name) else s;
    if r.UpdateTeam? {
      TeamService.RenamedRows(s, r.target, r.team.name);
    }
    if Sound(s) {
      if r.UpdateTeam? {
        TeamService.RenameKeepsSound(s, r.target, r.team.name);
      }
      TeamService.WriteKeepsSound(b, r.team);
    }
  }

  lemma UserWriteKeeps(s: Store, b: Store, name: Name, profile: Profile, submit: UserService.UserSubmit, t: Store)
    requires b == s.(users := b.users, teams := b.teams) && TeamGraph(b) == TeamGraph(s) && (Sound(s) ==> Sound(b))
    requires UserService.AfterWrite(b, name, profile, submit) == Ok(t)
    ensures t == s.(users := t.users, teams := t.teams) && TeamGraph(t) == TeamGraph(s)
    ensures Sound(s) ==> Sound(t)
  {
    hide Sound, UserService.AfterWrite;
    UserService.WriteFrame(b, name, profile, submit, t);
    if Sound(s) {
      UserService.WriteKeepsSound(b, name, profile, submit);
    }
  }

  lemma UserAnswersKeep(s: Store, first: FunctionService.FirstRows, r: Request, t: Store)
    requires FunctionService.ListsFirst(s, first) && Answer(s, first, r) == Ok(t)
    requires r.CreateUser? || r.UpdateUser? || r.DeleteUser?
    ensures t == s.(users := t.users, teams := t.teams) && TeamGraph(t) == TeamGraph(s)
    ensures Sound(s) ==> Sound(t)
  {
    hide Sound, Trim, UserService.AfterWrite, UserService.AfterRename, UserService.AfterDelete;
    match r
    case CreateUser(user) =>
      var profile := Profile(Trim(user.email), user.firstName, user.surname, false, None);
      UserWriteKeeps(s, s, Trim(user.username), profile, user, t);
    case UpdateUser(target, user) =>
      var profile := s.users[target].profile.(email := Trim(user.email), firstName := user.firstName,
                                              surname := user.surname);
      var name := Trim(user.username);
      UserService.RenameFrame(s, target, name);
      if Sound(s) {
        UserService.RenameKeepsSound(s, target, name);
      }
      UserWriteKeeps(s, UserService.AfterRename(s, target, name), name, profile, user, t);
    case DeleteUser(target, now) =>
      UserService.DeleteFrame(s, target, now, t);
      if Sound(s) {
        UserService.DeleteKeepsSound(s, target, now);
      }
  }

  lemma RenamedFunctionFrame(s: Store, from: Name, to: Name, t: Store)
    requires from in s.functions && t == FunctionService.AfterRename(s, from, to)
    ensures t == s.(functions := t.functions, roles := t.roles) && RoleGraph(t) == RoleGraph(s)
  {
  }

  lemma DeletedFunctionFrame(s: Store, gone: Name, t: Store)
    requires t == FunctionService.WithoutFunctions(s, {gone})
    ensures t == s.(functions := t.functions, roles := t.roles) && RoleGraph(t) == RoleGraph(s)
  {
  }

  lemma FunctionAnswersKeep(s: Store, first: FunctionService.FirstRows, r: Request, t: Store)
    requires FunctionService.ListsFirst(s, first) && Answer(s, first, r) == Ok(t)
    requires r.CreateFunction? || r.UpdateFunction? || r.DeleteFunction?
    ensures t == s.(functions := t.functions, roles := t.roles) && RoleGraph(t) == RoleGraph(s)
    ensures Sound(s) ==> Sound(t) && (FunctionsCovered(s) ==> FunctionsCovered(t))
  {
    hide Sound, FunctionsCovered, FunctionService.AfterRename, FunctionService.WithoutFunctions;
    match r
    case CreateFunction(fn) =>
      assert RoleGraph(t) == RoleGraph(s);
      if Sound(s) {
        FunctionService.WriteKeeps(s, first, fn);
      }
    case UpdateFunction(target, fn) =>
      var b := FunctionService.AfterRename(s, target, fn.name);
      RenamedFunctionFrame(s, target, fn.name, b);
      assert RoleGraph(t) == RoleGraph(b);
      if Sound(s) {
        FunctionService.RenameKeeps(s, target, fn.name);
        FunctionService.WriteKeeps(b, first, fn);
      }
    case DeleteFunction(target) =>
      DeletedFunctionFrame(s, target, t);
      if Sound(s) {
        FunctionService.WithoutFunctionsKeeps(s, {target});
      }
  }

  lemma AnswersKeepSound(s: Store, first: FunctionService.FirstRows, r: Request)
    requires Sound(s) && FunctionService.ListsFirst(s, first) && Answer(s, first, r).Ok?
    ensures Sound(Answer(s, first, r).value) <==> StartsSafely(s, r)
  {
    hide Sound, AfterContract, RoleService.AfterCreate, RoleService.AfterUpdate, TeamService.AfterCreate;
    hide TeamService.AfterUpdate, UserService.AfterCreate, UserService.AfterUpdate, UserService.AfterDelete;
    hide FunctionService.AfterCreate, FunctionService.AfterUpdate, FunctionService.AfterDelete;
    hide Bootstrap.AfterBootstrap, Bootstrap.SafeStart;
    var t := Answer(s, first, r).value;
    if r.CreateRole? || r.UpdateRole? {
      RoleAnswersKeep(s, first, r, t);
    } else if r.CreateTeam? || r.UpdateTeam? {
      TeamAnswersKeep(s, first, r, t);
    } else if r.CreateUser? || r.UpdateUser? || r.DeleteUser? {
      UserAnswersKeep(s, first, r, t);
    } else if r.ApplyContract? {
      ContractKeepsSound(s, r.contract, t);
    } else if r.Restart? {
      Bootstrap.BootstrapKeepsSoundIff(s, r.texts, r.created, t);
    } else {
      FunctionAnswersKeep(s, first, r, t);
    }
  }

  lemma StepKeepsSoundIff(s: Store, r: Request, t: Store)
    requires Sound(s) && Step(s, r, t)
    ensures Sound(t) <==> StartsSafely(s, r)
  {
    hide Answer, Sound, StartsSafely;
    var first :| FunctionService.ListsFirst(s, first)
                 && t == if Answer(s, first, r).Ok? then Answer(s, first, r).value else s;
    if Answer(s, first, r).Ok? {
      AnswersKeepSound(s, first, r);
    } else {
      RefusedStartIsSafe(s, first, r);
    }
  }

  lemma RefusedStartIsSafe(s: Store, first: FunctionService.FirstRows, r: Request)
    requires FunctionService.ListsFirst(s, first) && Answer(s, first, r).Err?
    ensures StartsSafely(s, r)
  {
    if r.Restart? {
      Bootstrap.RefusedIsSafe(s, r.texts, r.created);
    }
  }

  lemma {:induction false} RunsStaySound(trace: seq<Store>, requests: seq<Request>, i: nat)
    requires IsRun(trace, requests) && i < |trace| && Sound(trace[0])
    requires forall k :: 0 <= k < |requests| ==> StartsSafely(trace[k], requests[k])
    ensures Sound(trace[i])
  {
    hide Step, Sound, StartsSafely;
    if i > 0 {
      RunsStaySound(trace, requests, i - 1);
      StepKeepsSoundIff(trace[i - 1], requests[i - 1], trace[i]);
    }
  }

  /** Whatever requests a sound store meets in whatever order: no cycle through two roles or two teams,
      no team with members and child teams, every stored permission held, every foreign key valid, in
      every state exactly when every restart is safe. */
  lemma RunsStaySoundIff(trace: seq<Store>, requests: seq<Request>)
    requires IsRun(trace, requests) && Sound(trace[0])
    ensures (forall i :: 0 <= i < |trace| ==> Sound(trace[i])) <==>
            forall k :: 0 <= k < |requests| ==> StartsSafely(trace[k], requests[k])
  {
    hide Step, Sound, StartsSafely;
    if forall i :: 0 <= i < |trace| ==> Sound(trace[i]) {
      forall k | 0 <= k < |requests| ensures StartsSafely(trace[k], requests[k]) {
        StepKeepsSoundIff(trace[k], requests[k], trace[k + 1]);
      }
    }
    if forall k :: 0 <= k < |requests| ==> StartsSafely(trace[k], requests[k]) {
      forall i | 0 <= i < |trace| ensures Sound(trace[i]) {
        RunsStaySound(trace, requests, i);
      }
    }
  }

  /** In no state of such a run does the check of a submitted permission meet an empty `First()`. */
  lemma FirstNeverFails(trace: seq<Store>, requests: seq<Request>, i: nat, first: FunctionService.FirstRows, r: Request)
    requires IsRun(trace, requests) && i < |trace| && Sound(trace[0]) && FunctionService.ListsFirst(trace[i], first)
    requires forall k :: 0 <= k < |requests| ==> StartsSafely(trace[k], requests[k])
    requires r.CreateFunction? || r.UpdateFunction?
    ensures Answer(trace[i], first, r).Err? ==> !Answer(trace[i], first, r).error.EmptySequence?
  {
    RunsStaySound(trace, requests, i);
    if r.CreateFunction? {
      FunctionService.HeldNeverEmpty(trace[i], first, r.fn.application, r.fn.permissions);
    } else if r.target in trace[i].functions {
      FunctionService.HeldNeverEmpty(FunctionService.AfterRename(trace[i], r.target, r.fn.name), first,
          r.fn.application, r.fn.permissions);
    }
  }
}
