/** When the role graph and the team graph stay one level deep, and that they always stay free of cycles. */
module Levels {
  import opened Results
  import opened Entries
  import opened Strings
  import opened Model
  import opened Graphs
  import opened Invariants
  import opened Assignments
  import RoleService
  import TeamService
  import UserService
  import FunctionService
  import opened SecurityContractDefaultConfiguration
  import opened ApplicationsSection
  import opened SecurityContract
  import opened Runs
  import Bootstrap
  import Claims

  /** `node` may be given `children`: there are none, or it has no parent, itself included. */
  predicate MayHave(g: Graph, node: Name, children: seq<Name>) {
    children == [] || (NobodysChild(g, node) && node !in children)
  }

  /** The same for a node that is renamed on the way; a list that is not submitted changes nothing. */
  predicate UpdateMayHave(g: Graph, target: Name, name: Name, children: Option<seq<Name>>) {
    OptionalNames(children) == [] || (NobodysChild(g, target) && name !in children.value)
  }

  lemma NobodysChildRenamed(g: Graph, from: Name, to: Name)
    requires from in g && to !in g && Closed(g)
    ensures NobodysChild(RenameNode(g, from, to), to) <==> NobodysChild(g, from)
  {
    var h := RenameNode(g, from, to);
    if a :| a in g && from in g[a] {
      var b := Renamed(a, from, to);
      assert b in h && Renamed(b, to, from) == a;
      assert Renamed(from, from, to) in h[b];
    }
  }

  lemma FreshIsNobodysChild(g: Graph, node: Name)
    requires Closed(g)
    ensures node !in g ==> NobodysChild(g, node)
  {
  }

  // ---- roles ----

  lemma RoleWriteKeepsOneLevelIff(s: Store, name: Name, description: Text, functions: seq<Name>,
                                  children: Option<seq<Name>>, t: Store)
    requires OneLevel(RoleGraph(s)) && RoleService.AfterWrite(s, name, description, functions, children) == Ok(t)
    requires children.Some? || name in s.roles || NobodysChild(RoleGraph(s), name)
    ensures OneLevel(RoleGraph(t)) <==> MayHave(RoleGraph(s), name, OptionalNames(children))
  {
    var rows := t.roles[name].children;
    assert RoleGraph(t) == RoleGraph(s)[name := rows];
    if children.Some? {
      NoElements(children.value);
      AssignmentKeepsOneLevelIff(RoleGraph(s), name, rows);
    } else if name in s.roles {
      assert RoleGraph(t) == RoleGraph(s);
    }
  }

  lemma CreateRoleKeepsOneLevel(s: Store, submit: RoleService.RoleSubmit, t: Store)
    requires Closed(RoleGraph(s)) && OneLevel(RoleGraph(s)) && RoleService.AfterCreate(s, submit) == Ok(t)
    ensures t.teams == s.teams
    ensures OneLevel(RoleGraph(t))
  {
    RoleWriteKeepsOneLevelIff(s, submit.name, submit.description, submit.functions, submit.roles, t);
  }

  /** An accepted update keeps the role graph one level deep exactly when the role gets no child
      roles, or is nobody's child and not its own. */
  lemma UpdateRoleKeepsOneLevelIff(s: Store, target: Name, submit: RoleService.RoleSubmit, t: Store)
    requires Closed(RoleGraph(s)) && OneLevel(RoleGraph(s)) && RoleService.AfterUpdate(s, target, submit) == Ok(t)
    ensures t.teams == s.teams
    ensures OneLevel(RoleGraph(t)) <==> UpdateMayHave(RoleGraph(s), target, submit.name, submit.roles)
  {
    hide OneLevel, RenameNode, NobodysChild, RenameIn;
    var b := RoleService.AfterRename(s, target, submit.name);
    if target != submit.name {
      RoleService.RenameInGraph(s, target, submit.name);
      RenameKeepsOneLevel(RoleGraph(s), target, submit.name);
      NobodysChildRenamed(RoleGraph(s), target, submit.name);
    }
    RoleWriteKeepsOneLevelIff(b, submit.name, submit.description, submit.functions, submit.roles, t);
  }

  // ---- teams ----

  lemma TeamWriteKeepsOneLevelIff(s: Store, submit: TeamService.TeamSubmit, t: Store)
    requires OneLevel(TeamGraph(s)) && TeamService.AfterWrite(s, submit) == Ok(t)
    requires submit.teams.Some? || submit.name in s.teams || NobodysChild(TeamGraph(s), submit.name)
    ensures OneLevel(TeamGraph(t)) <==> MayHave(TeamGraph(s), submit.name, OptionalNames(submit.teams))
  {
    var rows := t.teams[submit.name].children;
    assert TeamGraph(t) == TeamGraph(s)[submit.name := rows];
    if submit.teams.Some? {
      NoElements(submit.teams.value);
      AssignmentKeepsOneLevelIff(TeamGraph(s), submit.name, rows);
    } else if submit.name in s.teams {
      assert TeamGraph(t) == TeamGraph(s);
    }
  }

  lemma CreateTeamKeepsOneLevel(s: Store, submit: TeamService.TeamSubmit, t: Store)
    requires Closed(TeamGraph(s)) && OneLevel(TeamGraph(s)) && TeamService.AfterCreate(s, submit) == Ok(t)
    ensures t.roles == s.roles
    ensures OneLevel(TeamGraph(t))
  {
    TeamWriteKeepsOneLevelIff(s, submit, t);
  }

  lemma UpdateTeamKeepsOneLevelIff(s: Store, target: Name, submit: TeamService.TeamSubmit, t: Store)
    requires Closed(TeamGraph(s)) && OneLevel(TeamGraph(s)) && TeamService.AfterUpdate(s, target, submit) == Ok(t)
    ensures t.roles == s.roles
    ensures OneLevel(TeamGraph(t)) <==> UpdateMayHave(TeamGraph(s), target, submit.name, submit.teams)
  {
    hide OneLevel, RenameNode, NobodysChild, RenameIn;
    var b := TeamService.AfterRename(s, target, submit.name);
    if target != submit.name {
      TeamService.RenameInGraph(s, target, submit.name);
      RenameKeepsOneLevel(TeamGraph(s), target, submit.name);
      NobodysChildRenamed(TeamGraph(s), target, submit.name);
    }
    TeamWriteKeepsOneLevelIff(b, submit, t);
  }

  lemma DeclaredTeamKeepsOneLevelIff(s: Store, d: Entry<TeamBody>, t: Store)
    requires OneLevel(TeamGraph(s)) && AfterTeam(s, d) == Ok(t)
    ensures OneLevel(TeamGraph(t)) <==> MayHave(TeamGraph(s), d.name, d.body.teams)
  {
    var rows := t.teams[d.name].children;
    assert TeamGraph(t) == TeamGraph(s)[d.name := rows];
    NoElements(d.body.teams);
    AssignmentKeepsOneLevelIff(TeamGraph(s), d.name, rows);
  }

  // ---- contracts ----

  function RoleLists(ds: seq<Entry<RoleBody>>): ChildLists {
    if ds == [] then [] else [Entry(ds[0].name, ds[0].body.roles)] + RoleLists(ds[1..])
  }

  function TeamLists(ds: seq<Entry<TeamBody>>): ChildLists {
    if ds == [] then [] else [Entry(ds[0].name, ds[0].body.teams)] + TeamLists(ds[1..])
  }

  /** The child lists of a section, in the order in which they are applied. */
  function SectionRoleLists(d: DefaultConfiguration): ChildLists {
    RoleLists(RolesWhere(false, d.roles)) + RoleLists(RolesWhere(true, d.roles))
  }

  function SectionTeamLists(d: DefaultConfiguration): ChildLists {
    TeamLists(TeamsWhere(false, d.teams)) + TeamLists(TeamsWhere(true, d.teams))
  }

  function AllRoleLists(ds: seq<DefaultConfiguration>): ChildLists {
    if ds == [] then [] else SectionRoleLists(ds[0]) + AllRoleLists(ds[1..])
  }

  function AllTeamLists(ds: seq<DefaultConfiguration>): ChildLists {
    if ds == [] then [] else SectionTeamLists(ds[0]) + AllTeamLists(ds[1..])
  }

  /** `h` is `g` after the lists, each of which named leaves when its turn came. */
  predicate Listed(g: Graph, ls: ChildLists, h: Graph) {
    h == Overwritten(g, ls) && ListsLeaves(g, ls)
  }

  lemma ListedAppend(g: Graph, xs: ChildLists, h: Graph, ys: ChildLists, k: Graph)
    requires Listed(g, xs, h) && Listed(h, ys, k)
    ensures Listed(g, xs + ys, k)
  {
    OverwrittenAppend(g, xs, ys);
  }

  lemma OneRoleInGraph(s: Store, d: Entry<RoleBody>, t: Store)
    requires AfterRole(s, d) == Ok(t)
    ensures RoleGraph(t) == RoleGraph(s)[d.name := Elements(d.body.roles)] && TeamGraph(t) == TeamGraph(s)
    ensures forall c <- d.body.roles :: c in RoleGraph(s) && RoleGraph(s)[c] == {}
  {
  }

  lemma {:induction false} RoleListInGraph(s: Store, ds: seq<Entry<RoleBody>>, t: Store)
    requires AfterRoleList(s, ds) == Ok(t)
    ensures Listed(RoleGraph(s), RoleLists(ds), RoleGraph(t)) && TeamGraph(t) == TeamGraph(s)
    decreases |ds|
  {
    if ds != [] {
      var u := AfterRole(s, ds[0]).value;
      OneRoleInGraph(s, ds[0], u);
      hide AfterRole;
      RoleListInGraph(u, ds[1..], t);
      assert RoleLists(ds)[1..] == RoleLists(ds[1..]);
    }
  }

  lemma OneTeamInGraph(s: Store, d: Entry<TeamBody>, t: Store)
    requires AfterTeam(s, d) == Ok(t)
    ensures TeamGraph(t) == TeamGraph(s)[d.name := Elements(d.body.teams)] && RoleGraph(t) == RoleGraph(s)
    ensures forall c <- d.body.teams :: c in TeamGraph(s) && TeamGraph(s)[c] == {}
  {
  }

  lemma {:induction false} TeamListInGraph(s: Store, ds: seq<Entry<TeamBody>>, t: Store)
    requires AfterTeamList(s, ds) == Ok(t)
    ensures Listed(TeamGraph(s), TeamLists(ds), TeamGraph(t)) && RoleGraph(t) == RoleGraph(s)
    decreases |ds|
  {
    if ds != [] {
      var u := AfterTeam(s, ds[0]).value;
      OneTeamInGraph(s, ds[0], u);
      hide AfterTeam;
      TeamListInGraph(u, ds[1..], t);
      assert TeamLists(ds)[1..] == TeamLists(ds[1..]);
    }
  }

  // ---- steps that touch neither graph ----

  predicate SameGraphs(s: Store, t: Store) {
    RoleGraph(t) == RoleGraph(s) && TeamGraph(t) == TeamGraph(s)
  }

  lemma ApplicationLeavesGraphs(s: Store, d: Entry<FunctionList>, t: Store)
    requires AfterApplication(s, d) == Ok(t)
    ensures SameGraphs(s, t)
  {
    var u := FunctionService.WithoutFunctions(s, Undeclared(s, d.name, d.body));
    assert t.teams == s.teams && (t.roles == s.roles || t.roles == u.roles);
  }

  lemma {:induction false} ApplicationsLeaveGraphs(s: Store, ds: seq<Entry<FunctionList>>, t: Store)
    requires AfterApplications(s, ds) == Ok(t)
    ensures SameGraphs(s, t)
    decreases |ds|
  {
    if ds != [] {
      var u := AfterApplication(s, ds[0]).value;
      ApplicationLeavesGraphs(s, ds[0], u);
      ApplicationsLeaveGraphs(u, ds[1..], t);
    }
  }

  lemma UserLeavesGraphs(s: Store, d: Entry<UserBody>, t: Store)
    requires AfterUser(s, d) == Ok(t)
    ensures SameGraphs(s, t)
  {
    if d.name in s.users {
      UserService.RenameFrame(s, d.name, Trim(d.name));
    }
  }

  lemma {:induction false} UsersLeaveGraphs(s: Store, ds: seq<Entry<UserBody>>, t: Store)
    requires AfterUsers(s, ds) == Ok(t)
    ensures SameGraphs(s, t)
    decreases |ds|
  {
    if ds != [] {
      var u := AfterUser(s, ds[0]).value;
      UserLeavesGraphs(s, ds[0], u);
      UsersLeaveGraphs(u, ds[1..], t);
    }
  }

  // ---- whole contracts ----

  lemma DefaultsInGraphs(s: Store, d: DefaultConfiguration, t: Store)
    requires AfterDefaults(s, d) == Ok(t)
    ensures Listed(RoleGraph(s), SectionRoleLists(d), RoleGraph(t))
    ensures Listed(TeamGraph(s), SectionTeamLists(d), TeamGraph(t))
  {
    hide AfterApplications, AfterRoleList, AfterUsers, AfterTeamList, RolesWhere, TeamsWhere, Listed;
    var a := AfterApplications(s, d.applications).value;
    ApplicationsLeaveGraphs(s, d.applications, a);
    var b, r := AfterRoleList(a, RolesWhere(false, d.roles)).value, AfterRoles(a, d.roles).value;
    RoleListInGraph(a, RolesWhere(false, d.roles), b);
    RoleListInGraph(b, RolesWhere(true, d.roles), r);
    ListedAppend(RoleGraph(a), RoleLists(RolesWhere(false, d.roles)), RoleGraph(b),
                 RoleLists(RolesWhere(true, d.roles)), RoleGraph(r));
    var u := AfterUsers(r, d.users).value;
    UsersLeaveGraphs(r, d.users, u);
    var v := AfterTeamList(u, TeamsWhere(false, d.teams)).value;
    TeamListInGraph(u, TeamsWhere(false, d.teams), v);
    TeamListInGraph(v, TeamsWhere(true, d.teams), t);
    ListedAppend(TeamGraph(u), TeamLists(TeamsWhere(false, d.teams)), TeamGraph(v),
                 TeamLists(TeamsWhere(true, d.teams)), TeamGraph(t));
  }

  lemma {:induction false} DefaultListInGraphs(s: Store, ds: seq<DefaultConfiguration>, t: Store)
    requires AfterDefaultList(s, ds) == Ok(t)
    ensures Listed(RoleGraph(s), AllRoleLists(ds), RoleGraph(t))
    ensures Listed(TeamGraph(s), AllTeamLists(ds), TeamGraph(t))
    decreases |ds|
  {
    if ds != [] {
      hide AfterDefaults, Listed, SectionRoleLists, SectionTeamLists;
      var d, u := ds[0], AfterDefaults(s, ds[0]).value;
      DefaultsInGraphs(s, d, u);
      DefaultListInGraphs(u, ds[1..], t);
      ListedAppend(RoleGraph(s), SectionRoleLists(d), RoleGraph(u), AllRoleLists(ds[1..]), RoleGraph(t));
      ListedAppend(TeamGraph(s), SectionTeamLists(d), TeamGraph(u), AllTeamLists(ds[1..]), TeamGraph(t));
    }
  }

  lemma ContractInGraphs(s: Store, c: Contract, t: Store)
    requires AfterContract(s, c) == Ok(t)
    ensures Listed(RoleGraph(s), AllRoleLists(c.defaults), RoleGraph(t))
    ensures Listed(TeamGraph(s), AllTeamLists(c.defaults), TeamGraph(t))
  {
    hide AfterResourceServers, AfterDefaultList, Listed;
    var u := AfterResourceServers(s, c.applications).value;
    ResourceServersFrame(s, c.applications, u);
    assert RoleGraph(u) == RoleGraph(s) && TeamGraph(u) == TeamGraph(s);
    DefaultListInGraphs(u, c.defaults, t);
  }

  /** No role and no team that the contract leaves with children is a child when it is applied. */
  predicate LeavesNoCompoundChild(s: Store, c: Contract) {
    && CompoundIsNoChild(RoleGraph(s), AllRoleLists(c.defaults))
    && CompoundIsNoChild(TeamGraph(s), AllTeamLists(c.defaults))
  }

  /** An accepted contract, with any number of sections, keeps one level exactly when no role or team
      that it leaves with children is a child in the end. */
  lemma ContractKeepsFlatIff(s: Store, c: Contract, t: Store)
    requires Flat(s) && AfterContract(s, c) == Ok(t)
    ensures Flat(t) <==> LeavesNoCompoundChild(s, c)
  {
    hide AfterContract, OneLevel, Overwritten, ListsLeaves, CompoundIsNoChild, AllRoleLists, AllTeamLists;
    ContractInGraphs(s, c, t);
    OverwrittenKeepsOneLevelIff(RoleGraph(s), AllRoleLists(c.defaults));
    OverwrittenKeepsOneLevelIff(TeamGraph(s), AllTeamLists(c.defaults));
  }

  lemma ContractKeepsAcyclic(s: Store, c: Contract, t: Store)
    requires Linked(s) && AfterContract(s, c) == Ok(t)
    ensures Linked(t) && (Acyclic(s) ==> Acyclic(t))
  {
    hide AfterContract, NoLongCycle, Closed, Overwritten, ListsLeaves, AllRoleLists, AllTeamLists;
    ContractInGraphs(s, c, t);
    OverwrittenKeeps(RoleGraph(s), AllRoleLists(c.defaults));
    OverwrittenKeeps(TeamGraph(s), AllTeamLists(c.defaults));
  }

  // ---- requests ----

  /** The request gives no children to a role or team that is a child in the end. */
  predicate Qualifies(s: Store, r: Request) {
    match r
    case UpdateRole(target, role) =>
      RoleService.AfterUpdate(s, target, role).Ok? ==> UpdateMayHave(RoleGraph(s), target, role.name, role.roles)
    case UpdateTeam(target, team) =>
      TeamService.AfterUpdate(s, target, team).Ok? ==> UpdateMayHave(TeamGraph(s), target, team.name, team.teams)
    case ApplyContract(c) => AfterContract(s, c).Ok? ==> LeavesNoCompoundChild(s, c)
    case _ => true
  }

  /** One assignment that the services accept: leaves for one node, or nothing new. */
  predicate Assigned(g: Graph, node: Name, h: Graph) {
    h == g || (node in h && h == g[node := h[node]] && forall c <- h[node] :: c in g && g[c] == {})
  }

  lemma AssignedKeeps(g: Graph, node: Name, h: Graph)
    requires Assigned(g, node, h) && Closed(g)
    ensures Closed(h) && (NoLongCycle(g) ==> NoLongCycle(h))
  {
    hide NoLongCycle;
    if h != g && NoLongCycle(g) {
      AssignmentClosesNoCycle(g, node, h[node]);
    }
  }

  lemma RenamedKeeps(g: Graph, from: Name, to: Name)
    requires from in g && to !in g && Closed(g)
    ensures Closed(RenameNode(g, from, to)) && (NoLongCycle(g) ==> NoLongCycle(RenameNode(g, from, to)))
  {
    hide NoLongCycle, Closed, RenameNode;
    RenameKeepsClosed(g, from, to);
    if NoLongCycle(g) {
      RenameKeepsNoLongCycle(g, from, to);
    }
  }

  lemma RoleWriteAssigns(s: Store, name: Name, description: Text, functions: seq<Name>, children: Option<seq<Name>>,
                         t: Store)
    requires RoleService.AfterWrite(s, name, description, functions, children) == Ok(t)
    ensures Assigned(RoleGraph(s), name, RoleGraph(t)) && TeamGraph(t) == TeamGraph(s)
  {
    assert RoleGraph(t) == RoleGraph(s)[name := t.roles[name].children];
    if children.None? && name in s.roles {
      assert RoleGraph(t) == RoleGraph(s);
    }
  }

  lemma RoleAnswersInGraph(s: Store, first: FunctionService.FirstRows, r: Request, t: Store)
    requires Linked(s) && FunctionService.ListsFirst(s, first) && Answer(s, first, r) == Ok(t)
    requires r.CreateRole? || r.UpdateRole?
    ensures Linked(t) && (Acyclic(s) ==> Acyclic(t)) && (Flat(s) ==> (Flat(t) <==> Qualifies(s, r)))
  {
    hide OneLevel, NoLongCycle, Closed, RenameNode, UpdateMayHave, RoleService.AfterWrite, RoleService.AfterRename;
    var b, role := s, r.role;
    if r.UpdateRole? {
      b := RoleService.AfterRename(s, r.target, role.name);
      RoleRenameInGraph(s, r.target, role.name);
    }
    RoleWriteAssigns(b, role.name, role.description, role.functions, role.roles, t);
    AssignedKeeps(RoleGraph(b), role.name, RoleGraph(t));
    if Flat(s) && r.CreateRole? {
      CreateRoleKeepsOneLevel(s, role, t);
    } else if Flat(s) {
      UpdateRoleKeepsOneLevelIff(s, r.target, role, t);
    }
  }

  lemma RoleRenameInGraph(s: Store, from: Name, to: Name)
    requires Linked(s) && from in s.roles && (from == to || to !in s.roles)
    ensures var b := RoleService.AfterRename(s, from, to);
            Linked(b) && (Acyclic(s) ==> Acyclic(b)) && TeamGraph(b) == TeamGraph(s)
  {
    hide NoLongCycle, Closed, RenameNode;
    if from != to {
      RoleService.RenameInGraph(s, from, to);
      RenamedKeeps(RoleGraph(s), from, to);
    }
  }

  lemma TeamWriteAssigns(s: Store, submit: TeamService.TeamSubmit, t: Store)
    requires TeamService.AfterWrite(s, submit) == Ok(t)
    ensures Assigned(TeamGraph(s), submit.name, TeamGraph(t)) && RoleGraph(t) == RoleGraph(s)
  {
    assert TeamGraph(t) == TeamGraph(s)[submit.name := t.teams[submit.name].children];
    if submit.teams.None? && submit.name in s.teams {
      assert TeamGraph(t) == TeamGraph(s);
    }
  }

  lemma TeamAnswersInGraph(s: Store, first: FunctionService.FirstRows, r: Request, t: Store)
    requires Linked(s) && FunctionService.ListsFirst(s, first) && Answer(s, first, r) == Ok(t)
    requires r.CreateTeam? || r.UpdateTeam?
    ensures Linked(t) && (Acyclic(s) ==> Acyclic(t)) && (Flat(s) ==> (Flat(t) <==> Qualifies(s, r)))
  {
    hide OneLevel, NoLongCycle, Closed, RenameNode, UpdateMayHave, TeamService.AfterWrite, TeamService.AfterRename;
    var b, team := s, r.team;
    if r.UpdateTeam? {
      b := TeamService.AfterRename(s, r.target, team.name);
      TeamRenameInGraph(s, r.target, team.name);
    }
    TeamWriteAssigns(b, team, t);
    AssignedKeeps(TeamGraph(b), team.name, TeamGraph(t));
    if Flat(s) && r.CreateTeam? {
      CreateTeamKeepsOneLevel(s, team, t);
    } else if Flat(s) {
      UpdateTeamKeepsOneLevelIff(s, r.target, team, t);
    }
  }

  lemma TeamRenameInGraph(s: Store, from: Name, to: Name)
    requires Linked(s) && from in s.teams && (from == to || to !in s.teams)
    ensures var b := TeamService.AfterRename(s, from, to);
            Linked(b) && (Acyclic(s) ==> Acyclic(b)) && RoleGraph(b) == RoleGraph(s)
  {
    hide NoLongCycle, Closed, RenameNode;
    if from != to {
      TeamService.RenameInGraph(s, from, to);
      RenamedKeeps(TeamGraph(s), from, to);
    }
  }

  lemma ContractAnswersInGraph(s: Store, c: Contract, t: Store)
    requires Linked(s) && AfterContract(s, c) == Ok(t)
    ensures Linked(t) && (Acyclic(s) ==> Acyclic(t)) && (Flat(s) ==> (Flat(t) <==> Qualifies(s, ApplyContract(c))))
  {
    hide AfterContract, Acyclic, Linked, Flat, LeavesNoCompoundChild;
    ContractKeepsAcyclic(s, c, t);
    if Flat(s) {
      ContractKeepsFlatIff(s, c, t);
    }
  }

  lemma RestartInGraph(s: Store, texts: Bootstrap.Texts, created: bool, t: Store)
    requires Linked(s) && Bootstrap.AfterBootstrap(s, texts, created) == Ok(t)
    ensures Linked(t) && (Acyclic(s) ==> Acyclic(t)) && (Flat(s) ==> Flat(t))
  {
    hide NoLongCycle, OneLevel, Bootstrap.AfterBootstrap, Bootstrap.ROLE, Bootstrap.ADMIN, Bootstrap.FUNCTION;
    Bootstrap.BootstrapFrame(s, texts, created, t);
    var g, node := RoleGraph(s), Bootstrap.ROLE;
    assert TeamGraph(t) == TeamGraph(s);
    if t.roles == s.roles {
      assert RoleGraph(t) == g;
    } else {
      assert RoleGraph(t) == g[node := {}];
      if NoLongCycle(g) {
        AssignmentClosesNoCycle(g, node, {});
      }
      if OneLevel(g) {
        AssignmentKeepsOneLevelIff(g, node, {});
      }
    }
  }

  // ---- runs ----

  lemma StepInGraphs(s: Store, r: Request, t: Store)
    requires Linked(s) && Step(s, r, t)
    ensures Linked(t) && (Acyclic(s) ==> Acyclic(t)) && (Flat(s) ==> (Flat(t) <==> Qualifies(s, r)))
  {
    hide AfterContract, RoleService.AfterCreate, RoleService.AfterUpdate, TeamService.AfterCreate;
    hide TeamService.AfterUpdate, UserService.AfterCreate, UserService.AfterUpdate, UserService.AfterDelete;
    hide FunctionService.AfterCreate, FunctionService.AfterUpdate, FunctionService.AfterDelete;
    hide Bootstrap.AfterBootstrap, NoLongCycle, OneLevel, Closed, UpdateMayHave, LeavesNoCompoundChild;
    var first :| FunctionService.ListsFirst(s, first)
                 && t == if Answer(s, first, r).Ok? then Answer(s, first, r).value else s;
    if Answer(s, first, r).Ok? {
      if r.CreateRole? || r.UpdateRole? {
        RoleAnswersInGraph(s, first, r, t);
      } else if r.CreateTeam? || r.UpdateTeam? {
        TeamAnswersInGraph(s, first, r, t);
      } else if r.CreateUser? || r.UpdateUser? || r.DeleteUser? {
        UserAnswersKeep(s, first, r, t);
        assert RoleGraph(t) == RoleGraph(s);
      } else if r.ApplyContract? {
        ContractAnswersInGraph(s, r.contract, t);
      } else if r.Restart? {
        RestartInGraph(s, r.texts, r.created, t);
      } else {
        FunctionAnswersKeep(s, first, r, t);
        assert TeamGraph(t) == TeamGraph(s);
      }
    }
  }

  /** No run closes a cycle through two roles or two teams, whatever it starts from. */
  lemma {:induction false} RunsStayAcyclic(trace: seq<Store>, requests: seq<Request>, i: nat)
    requires IsRun(trace, requests) && i < |trace| && Linked(trace[0])
    ensures Linked(trace[i]) && (Acyclic(trace[0]) ==> Acyclic(trace[i]))
  {
    hide Step, Linked, Acyclic, Flat;
    if i > 0 {
      RunsStayAcyclic(trace, requests, i - 1);
      StepInGraphs(trace[i - 1], requests[i - 1], trace[i]);
    }
  }

  lemma {:induction false} RunsStayOneLevel(trace: seq<Store>, requests: seq<Request>, i: nat)
    requires IsRun(trace, requests) && i < |trace| && Linked(trace[0]) && Flat(trace[0])
    requires forall k :: 0 <= k < |requests| ==> Qualifies(trace[k], requests[k])
    ensures Flat(trace[i])
  {
    hide Step, Linked, Acyclic, Flat, Qualifies;
    if i > 0 {
      RunsStayAcyclic(trace, requests, i - 1);
      RunsStayOneLevel(trace, requests, i - 1);
      StepInGraphs(trace[i - 1], requests[i - 1], trace[i]);
    }
  }

  /** A run never gets a second level exactly when no request leaves a child with children. */
  lemma RunsStayOneLevelIff(trace: seq<Store>, requests: seq<Request>)
    requires IsRun(trace, requests) && Linked(trace[0]) && Flat(trace[0])
    ensures (forall i :: 0 <= i < |trace| ==> Flat(trace[i])) <==>
            forall k :: 0 <= k < |requests| ==> Qualifies(trace[k], requests[k])
  {
    hide Step, Linked, Acyclic, Flat, Qualifies;
    if forall i :: 0 <= i < |trace| ==> Flat(trace[i]) {
      forall k | 0 <= k < |requests| ensures Qualifies(trace[k], requests[k]) {
        RunsStayAcyclic(trace, requests, k);
        StepInGraphs(trace[k], requests[k], trace[k + 1]);
      }
    }
    if forall k :: 0 <= k < |requests| ==> Qualifies(trace[k], requests[k]) {
      forall i | 0 <= i < |trace| ensures Flat(trace[i]) {
        RunsStayOneLevel(trace, requests, i);
      }
    }
  }

  /** In every state of such a run, a user passes the permission check with a new token exactly when
      a role they have, or any role below it, grants the permission. */
  lemma RunsLetThroughIffGranted(trace: seq<Store>, requests: seq<Request>, i: nat, user: Name,
                                 principal: seq<Claims.Claim>,
                                 kinds: set<string>, ids: Claims.TeamIds, email: Option<Text>, name: Option<Text>,
                                 issued: seq<Claims.Claim>, required: Name)
    requires IsRun(trace, requests) && i < |trace| && Linked(trace[0]) && Flat(trace[0])
    requires forall k :: 0 <= k < |requests| ==> Qualifies(trace[k], requests[k])
    requires Claims.Values(Claims.Requested(principal, kinds), Claims.PERMISSION) == {}
    requires Claims.IsProfile(trace[i], user, Claims.Requested(principal, kinds), ids,
             Claims.Contact(email, name), issued)
    ensures required in Claims.Values(issued, Claims.PERMISSION) <==> Claims.Grants(trace[i], user, required)
  {
    hide IsRun, Qualifies, OneLevel, Claims.IsProfile, Claims.Grants;
    RunsStayOneLevel(trace, requests, i);
    Claims.LetThroughIffGranted(trace[i], user, principal, kinds, ids, email, name, issued, required);
  }

  function PlainRole(name: Name, children: seq<Name>): RoleService.RoleSubmit {
    RoleService.RoleSubmit(name, "", [], Some(children))
  }

  function WithRole(s: Store, name: Name, children: set<Name>): Store {
    s.(roles := s.roles[name := Role("", {}, children)])
  }

  predicate PlainChildren(s: Store, children: seq<Name>) {
    |children| <= 1 && forall c <- children :: c in s.roles && s.roles[c].children == {}
  }

  lemma PlainRoleCreated(s: Store, name: Name, children: seq<Name>)
    requires s.appFunctions == map[] && name !in s.roles && PlainChildren(s, children)
    ensures Step(s, CreateRole(PlainRole(name, children)), WithRole(s, name, Elements(children)))
  {
    assert Elements<Name>([]) == {};
    assert FunctionService.ListsFirst(s, map[]);
  }

  lemma PlainRoleUpdated(s: Store, name: Name, children: seq<Name>)
    requires s.appFunctions == map[] && name in s.roles && PlainChildren(s, children)
    ensures Step(s, UpdateRole(name, PlainRole(name, children)), WithRole(s, name, Elements(children)))
  {
    assert Elements<Name>([]) == {};
    assert FunctionService.ListsFirst(s, map[]);
  }

  /** The promise of one level is not kept by every run: updating a role that is already a child
      role makes a second level. */
  lemma SomeRunMakesTwoLevels() returns (trace: seq<Store>, requests: seq<Request>)
    ensures IsRun(trace, requests) && trace[0] == EMPTY && |requests| == 4 && !OneLevel(RoleGraph(trace[4]))
  {
    hide OneLevel, Step, PlainRole;
    var s1 := WithRole(EMPTY, "C", Elements([]));
    var s2 := WithRole(s1, "A", Elements([]));
    var s3 := WithRole(s2, "B", Elements(["A"]));
    var s4 := WithRole(s3, "A", Elements(["C"]));
    PlainRoleCreated(EMPTY, "C", []);
    PlainRoleCreated(s1, "A", []);
    PlainRoleCreated(s2, "B", ["A"]);
    PlainRoleUpdated(s3, "A", ["C"]);
    trace := [EMPTY, s1, s2, s3, s4];
    requests := [CreateRole(PlainRole("C", [])), CreateRole(PlainRole("A", [])), CreateRole(PlainRole("B", ["A"])),
                 UpdateRole("A", PlainRole("A", ["C"]))];
    SecondLevel(s4);
  }

  lemma SecondLevel(s: Store)
    requires "A" in s.roles && "B" in s.roles && "A" in s.roles["B"].children && "C" in s.roles["A"].children
    ensures !OneLevel(RoleGraph(s))
  {
    assert "A" in RoleGraph(s)["B"] && "C" in RoleGraph(s)["A"];
  }
}
