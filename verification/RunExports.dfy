/** Contracts and exports in reachable stores. */
module RunExports {
  import opened Results
  import opened Entries
  import opened Strings
  import opened Model
  import opened Graphs
  import opened Invariants
  import RoleService
  import TeamService
  import UserService
  import Bootstrap
  import FunctionService
  import opened SecurityContractDefaultConfiguration
  import opened ApplicationsSection
  import opened TeamsSection
  import opened SecurityContract
  import opened ContractExport
  import opened ContractReapply
  import opened ContractRestore
  import opened Runs

  lemma SameProfilesStayTrimmed(s: Store, t: Store)
    requires UsersTrimmed(s) && SameProfiles(s, t)
    ensures UsersTrimmed(t)
  {
    assert LiveUsers(t) == LiveUsers(s);
  }

  lemma PutUserStaysTrimmed(s: Store, name: Name, user: User, t: Store)
    requires UsersTrimmed(s) && Trim(name) == name && Trim(user.profile.email) == user.profile.email
    requires t.users == s.users[name := user]
    ensures UsersTrimmed(t)
  {
    hide Trim;
    assert forall u <- LiveUsers(t) :: u != name ==> u in LiveUsers(s);
  }

  lemma RenamedUserStaysTrimmed(s: Store, from: Name, to: Name)
    requires UsersTrimmed(s) && from in s.users && (from == to || to !in s.users) && Trim(to) == to
    ensures UsersTrimmed(UserService.AfterRename(s, from, to))
  {
    var t := UserService.AfterRename(s, from, to);
    forall u <- LiveUsers(t) ensures Trim(u) == u && Trim(t.users[u].profile.email) == t.users[u].profile.email {
      assert Renamed(u, to, from) in LiveUsers(s);
    }
  }

  // ---- contracts ----

  lemma DeclaredUserStaysTrimmed(s: Store, d: Entry<UserBody>, t: Store)
    requires UsersTrimmed(s) && AfterUser(s, d) == Ok(t)
    ensures UsersTrimmed(t)
  {
    hide Trim, UsersTrimmed, UserService.AfterRename;
    var name := Trim(d.name);
    TrimIsIdempotent(d.name);
    TrimIsIdempotent(d.body.profile.email);
    if d.name in s.users {
      RenamedUserStaysTrimmed(s, d.name, name);
      PutUserStaysTrimmed(UserService.AfterRename(s, d.name, name), name, UserRow(d), t);
    } else {
      PutUserStaysTrimmed(s, name, UserRow(d), t);
    }
  }

  lemma {:induction false} DeclaredUsersStayTrimmed(s: Store, ds: seq<Entry<UserBody>>, t: Store)
    requires UsersTrimmed(s) && AfterUsers(s, ds) == Ok(t)
    ensures UsersTrimmed(t)
    decreases |ds|
  {
    if ds != [] {
      hide AfterUser, UsersTrimmed;
      var u := AfterUser(s, ds[0]).value;
      DeclaredUserStaysTrimmed(s, ds[0], u);
      DeclaredUsersStayTrimmed(u, ds[1..], t);
    }
  }

  lemma DefaultsStayTrimmed(s: Store, d: DefaultConfiguration, t: Store)
    requires Sound(s) && UsersTrimmed(s) && AfterDefaults(s, d) == Ok(t)
    ensures UsersTrimmed(t)
  {
    hide AfterApplications, AfterRoles, AfterUsers, AfterTeams, Sound, UsersTrimmed;
    var a := AfterApplications(s, d.applications).value;
    ApplicationsKeep(s, d.applications, a);
    var r := AfterRoles(a, d.roles).value;
    RolesKeepSound(a, d.roles, r);
    SameProfilesStayTrimmed(s, r);
    var u := AfterUsers(r, d.users).value;
    DeclaredUsersStayTrimmed(r, d.users, u);
    TeamsFrame(u, d.teams, t);
    SameProfilesStayTrimmed(u, t);
  }

  lemma {:induction false} DefaultListStaysTrimmed(s: Store, ds: seq<DefaultConfiguration>, t: Store)
    requires Sound(s) && UsersTrimmed(s) && AfterDefaultList(s, ds) == Ok(t)
    ensures UsersTrimmed(t)
    decreases |ds|
  {
    if ds != [] {
      hide AfterDefaults, Sound, UsersTrimmed;
      var u := AfterDefaults(s, ds[0]).value;
      DefaultsStayTrimmed(s, ds[0], u);
      DefaultsKeep(s, ds[0], u);
      DefaultListStaysTrimmed(u, ds[1..], t);
    }
  }

  lemma ContractStaysTrimmed(s: Store, c: Contract, t: Store)
    requires Sound(s) && UsersTrimmed(s) && AfterContract(s, c) == Ok(t)
    ensures UsersTrimmed(t)
  {
    hide Sound, UsersTrimmed;
    var u := AfterResourceServers(s, c.applications).value;
    ResourceServersKeepSound(s, c.applications, u);
    ResourceServersFrame(s, c.applications, u);
    SameProfilesStayTrimmed(s, u);
    DefaultListStaysTrimmed(u, c.defaults, t);
  }

  // ---- requests ----

  lemma WrittenUserStaysTrimmed(s: Store, name: Name, profile: Profile, submit: UserService.UserSubmit, t: Store)
    requires UsersTrimmed(s) && Trim(name) == name && Trim(profile.email) == profile.email
    requires UserService.AfterWrite(s, name, profile, submit) == Ok(t)
    ensures UsersTrimmed(t)
  {
    hide Trim, UsersTrimmed;
    PutUserStaysTrimmed(s, name, User(profile, Elements(submit.roles)), t);
  }

  lemma DeletedUserStaysTrimmed(s: Store, target: Name, now: int, t: Store)
    requires UsersTrimmed(s) && UserService.AfterDelete(s, target, now) == Ok(t)
    ensures UsersTrimmed(t)
  {
    assert forall u <- LiveUsers(t) :: u in LiveUsers(s) && t.users[u] == s.users[u];
  }

  lemma UserAnswersStayTrimmed(s: Store, first: FunctionService.FirstRows, r: Request, t: Store)
    requires UsersTrimmed(s) && FunctionService.ListsFirst(s, first) && Answer(s, first, r) == Ok(t)
    requires r.CreateUser? || r.UpdateUser? || r.DeleteUser?
    ensures UsersTrimmed(t)
  {
    hide UsersTrimmed, UserService.AfterWrite, UserService.AfterRename, UserService.AfterDelete, Trim;
    match r
    case CreateUser(user) =>
      TrimIsIdempotent(user.username);
      TrimIsIdempotent(user.email);
      WrittenUserStaysTrimmed(s, Trim(user.username),
          Profile(Trim(user.email), user.firstName, user.surname, false, None), user, t);
    case UpdateUser(target, user) =>
      TrimIsIdempotent(user.username);
      TrimIsIdempotent(user.email);
      var profile := s.users[target].profile.(email := Trim(user.email), firstName := user.firstName,
          surname := user.surname);
      RenamedUserStaysTrimmed(s, target, Trim(user.username));
      WrittenUserStaysTrimmed(UserService.AfterRename(s, target, Trim(user.username)), Trim(user.username), profile,
          user, t);
    case DeleteUser(target, now) =>
      DeletedUserStaysTrimmed(s, target, now, t);
  }

  lemma RestartStaysTrimmed(s: Store, texts: Bootstrap.Texts, created: bool, t: Store)
    requires UsersTrimmed(s) && Bootstrap.AfterBootstrap(s, texts, created) == Ok(t)
    ensures UsersTrimmed(t)
  {
    hide Trim, UsersTrimmed, Bootstrap.AfterBootstrap;
    Bootstrap.BootstrapFrame(s, texts, created, t);
    NothingToTrim(Bootstrap.ADMIN);
    NothingToTrim(Bootstrap.ADMIN_PROFILE.email);
    if t.users == s.users {
      SameProfilesStayTrimmed(s, t);
    } else {
      PutUserStaysTrimmed(s, Bootstrap.ADMIN, User(Bootstrap.ADMIN_PROFILE, {Bootstrap.ROLE}), t);
    }
  }

  lemma StepStaysTrimmed(s: Store, r: Request, t: Store)
    requires Sound(s) && UsersTrimmed(s) && Step(s, r, t)
    ensures UsersTrimmed(t)
  {
    hide Sound, UsersTrimmed, AfterContract, Bootstrap.AfterBootstrap;
    hide RoleService.AfterCreate, RoleService.AfterUpdate, TeamService.AfterCreate, TeamService.AfterUpdate;
    hide UserService.AfterCreate, UserService.AfterUpdate, UserService.AfterDelete;
    hide FunctionService.AfterCreate, FunctionService.AfterUpdate, FunctionService.AfterDelete;
    var first :| FunctionService.ListsFirst(s, first)
                 && t == if Answer(s, first, r).Ok? then Answer(s, first, r).value else s;
    if Answer(s, first, r).Ok? {
      if r.CreateUser? || r.UpdateUser? || r.DeleteUser? {
        UserAnswersStayTrimmed(s, first, r, t);
      } else if r.ApplyContract? {
        ContractStaysTrimmed(s, r.contract, t);
      } else if r.Restart? {
        RestartStaysTrimmed(s, r.texts, r.created, t);
      } else {
        if r.CreateRole? || r.UpdateRole? {
          RoleAnswersKeep(s, first, r, t);
        } else if r.CreateTeam? || r.UpdateTeam? {
          TeamAnswersKeep(s, first, r, t);
        } else {
          FunctionAnswersKeep(s, first, r, t);
        }
        SameProfilesStayTrimmed(s, t);
      }
    }
  }

  /** The first store of the run is sound, its users' names and addresses carry no white space around
      them, and every restart is safe. */
  ghost predicate IsTidyRun(trace: seq<Store>, requests: seq<Request>) {
    && IsRun(trace, requests) && Sound(trace[0]) && UsersTrimmed(trace[0])
    && forall k :: 0 <= k < |requests| ==> StartsSafely(trace[k], requests[k])
  }

  lemma {:induction false} RunsStayTrimmed(trace: seq<Store>, requests: seq<Request>, i: nat)
    requires IsTidyRun(trace, requests) && i < |trace|
    ensures Sound(trace[i]) && UsersTrimmed(trace[i])
  {
    hide Step, Sound, UsersTrimmed, StartsSafely;
    RunsStaySound(trace, requests, i);
    if i > 0 {
      RunsStayTrimmed(trace, requests, i - 1);
      StepStaysTrimmed(trace[i - 1], requests[i - 1], trace[i]);
    }
  }

  // ---- exports ----

  /** In every state of a run the exported contract leaves the store as it is, exactly when the store
      is reappliable. */
  lemma RunsReapplyIff(trace: seq<Store>, requests: seq<Request>, i: nat, c: Contract)
    requires IsTidyRun(trace, requests) && i < |trace|
    requires IsExport(trace[i], c) && NoOwnChildren(trace[i])
    ensures AfterContract(trace[i], c) == Ok(trace[i]) <==> Reappliable(trace[i])
  {
    hide IsTidyRun, Sound, UsersTrimmed, IsExport, AfterContract, Reappliable, NoOwnChildren;
    RunsStayTrimmed(trace, requests, i);
    ReapplyIff(trace[i], c);
  }

  /** And it rebuilds the store from nothing, with one API resource for every application, exactly
      when also everything in the store is carried and the order of the applications is right. */
  lemma RunsRestoreIff(trace: seq<Store>, requests: seq<Request>, i: nat, c: Contract)
    requires IsTidyRun(trace, requests) && i < |trace| && IsExport(trace[i], c)
    ensures AfterContract(EMPTY, c) == Ok(Registered(trace[i])) <==>
            Reappliable(trace[i]) && Carried(trace[i]) && HeldOnceOnto(EMPTY, trace[i], c.applications)
  {
    hide IsTidyRun, Sound, UsersTrimmed, IsExport, AfterContract, Reappliable, Carried, HeldOnceOnto;
    RunsStayTrimmed(trace, requests, i);
    RestoreIff(trace[i], c);
  }

  /** Idempotence in every state of a run: a well-declared contract that is accepted is accepted again
      exactly when it lists no declared compound role or team as a child, and is then without effect
      exactly when no section moves a stored function to another application. */
  lemma RunsContractAgainIff(trace: seq<Store>, requests: seq<Request>, i: nat, c: Contract, t: Store)
    requires IsRun(trace, requests) && i < |trace| && Sound(trace[0])
    requires forall k :: 0 <= k < |requests| ==> StartsSafely(trace[k], requests[k])
    requires WellDeclared(c) && AfterContract(trace[i], c) == Ok(t)
    ensures AfterContract(t, c).Ok? <==> forall d <- c.defaults :: NoCompoundChildren(d)
    ensures AfterContract(t, c) == Ok(t) <==>
              forall d <- c.defaults :: NoCompoundChildren(d) && NothingMovesIn(t, d.applications)
  {
    hide IsRun, Sound, WellDeclared, AfterContract, NoCompoundChildren, NothingMovesIn, StartsSafely;
    RunsStaySound(trace, requests, i);
    ContractAgainIff(trace[i], c, t);
  }
}
