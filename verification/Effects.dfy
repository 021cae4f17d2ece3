/** What requests do to the permissions of users: which of them can change any, and how. */
module Effects {
  import opened Results
  import opened Entries
  import opened Strings
  import opened Model
  import opened Graphs
  import opened Invariants
  import opened Assignments
  import RoleService
  import TeamService
  import UserService
  import FunctionService
  import opened SecurityContractApplication
  import opened SecurityContractDefaultConfiguration
  import opened ApplicationInvariants
  import RolesSection
  import TeamsSection
  import SecurityContract
  import opened Claims
  import opened Runs
  import Bootstrap

  /** The roles the query looks at. */
  predicate Queried(s: Store, user: Name, r: Name) {
    && user in s.users
    && (r in s.users[user].roles || exists a <- s.users[user].roles :: a in s.roles && r in s.roles[a].children)
  }

  lemma QueryOnRoles(s: Store, user: Name, p: Name)
    ensures p in PermissionQuery(s, user) <==> exists r :: Queried(s, user, r) && RoleHas(s, r, p)
  {
    hide PermissionsOf, Children, RoleHas;
    var g, xs := RoleGraph(s), RolesOf(s, user);
    PermissionsOfIff(s, xs, p);
    PermissionsOfIff(s, Children(g, xs), p);
    forall r ensures r in xs + Children(g, xs) <==> Queried(s, user, r) {
      ChildrenIff(g, xs, r);
    }
  }

  /** Two stores grant a user the same when a renaming of roles takes the one's rows to the other's. */
  lemma GrantedAlike(s: Store, t: Store, user: Name, after: Name, there: Name -> Name, back: Name -> Name)
    requires forall r :: Queried(s, user, r) ==> Queried(t, after, there(r))
    requires forall r :: Queried(t, after, r) ==> Queried(s, user, back(r))
    requires forall r, p :: RoleHas(s, r, p) ==> RoleHas(t, there(r), p)
    requires forall r, p :: RoleHas(t, r, p) ==> RoleHas(s, back(r), p)
    ensures PermissionQuery(t, after) == PermissionQuery(s, user)
  {
    hide Queried, RoleHas, PermissionQuery;
    forall p ensures p in PermissionQuery(t, after) <==> p in PermissionQuery(s, user) {
      QueryOnRoles(s, user, p);
      QueryOnRoles(t, after, p);
    }
  }

  // ---- renaming ----

  /** Giving a role a fresh name changes nobody's permissions. */
  lemma RoleRenameGrantsAlike(s: Store, from: Name, to: Name, user: Name)
    requires WellFormed(s) && from in s.roles && to !in s.roles
    ensures PermissionQuery(RoleService.AfterRename(s, from, to), user) == PermissionQuery(s, user)
  {
    var t := RoleService.AfterRename(s, from, to);
    forall r | Queried(s, user, r) ensures Queried(t, user, Renamed(r, from, to)) {
      if r !in s.users[user].roles {
        var a :| a in s.users[user].roles && a in s.roles && r in s.roles[a].children;
        assert Renamed(a, from, to) in t.users[user].roles;
        assert Renamed(r, from, to) in t.roles[Renamed(a, from, to)].children;
      }
    }
    forall r | Queried(t, user, r) ensures Queried(s, user, Renamed(r, to, from)) {
    }
    forall r, p | RoleHas(s, r, p) ensures RoleHas(t, Renamed(r, from, to), p) {
    }
    forall r, p | RoleHas(t, r, p) ensures RoleHas(s, Renamed(r, to, from), p) {
    }
    GrantedAlike(s, t, user, user, r => Renamed(r, from, to), r => Renamed(r, to, from));
  }

  /** So does giving a function a fresh name. */
  lemma FunctionRenameGrantsAlike(s: Store, from: Name, to: Name, user: Name)
    requires WellFormed(s) && from in s.functions && to !in s.functions
    ensures PermissionQuery(FunctionService.AfterRename(s, from, to), user) == PermissionQuery(s, user)
  {
    var t := FunctionService.AfterRename(s, from, to);
    forall r, p ensures RoleHas(t, r, p) <==> RoleHas(s, r, p) {
      if RoleHas(s, r, p) {
        var f :| f in s.roles[r].functions && f in s.functions && p in s.functions[f].permissions;
        assert Renamed(f, from, to) in t.roles[r].functions;
      }
    }
    GrantedAlike(s, t, user, user, r => r, r => r);
  }

  // ---- users ----

  lemma SameTablesGrantAlike(s: Store, t: Store, user: Name)
    requires t == s.(users := t.users, teams := t.teams)
    requires user in t.users <==> user in s.users
    requires user in s.users ==> t.users[user].roles == s.users[user].roles
    ensures PermissionQuery(t, user) == PermissionQuery(s, user)
  {
    GrantedAlike(s, t, user, user, r => r, r => r);
  }

  lemma SameMembershipsAlike(s: Store, t: Store, user: Name)
    requires t == s.(users := t.users, teams := t.teams) && t.teams.Keys == s.teams.Keys
    requires forall x <- s.teams :: t.teams[x] == s.teams[x].(members := t.teams[x].members)
    requires forall x <- s.teams :: user in t.teams[x].members <==> user in s.teams[x].members
    ensures TeamQuery(t, user) == TeamQuery(s, user) && PolicyQuery(t, user) == PolicyQuery(s, user)
  {
    hide TeamQuery, PoliciesOf, PolicyQuery;
    forall x ensures x in TeamQuery(t, user) <==> x in TeamQuery(s, user) {
      TeamQueryIff(s, user, x);
      TeamQueryIff(t, user, x);
    }
    forall p ensures p in PolicyQuery(t, user) <==> p in PolicyQuery(s, user) {
      PolicyQueryIff(s, user, p);
      PolicyQueryIff(t, user, p);
    }
  }

  /** The names under which a request changes a user's row. */
  function Touched(r: Request): set<Name> {
    match r
    case CreateUser(user) => {Trim(user.username)}
    case UpdateUser(target, user) => {target, Trim(user.username)}
    case DeleteUser(target, now) => {target, target + " - Deleted"}
    case _ => {}
  }

  /** Creating, updating or deleting a user changes nobody else's roles, teams or policies. */
  lemma OtherUsersStay(s: Store, first: FunctionService.FirstRows, r: Request, t: Store, other: Name)
    requires FunctionService.ListsFirst(s, first) && Answer(s, first, r) == Ok(t)
    requires (r.CreateUser? || r.UpdateUser? || r.DeleteUser?) && other !in Touched(r)
    ensures PermissionQuery(t, other) == PermissionQuery(s, other)
    ensures TeamQuery(t, other) == TeamQuery(s, other) && PolicyQuery(t, other) == PolicyQuery(s, other)
  {
    hide Trim, UserService.AfterCreate, UserService.AfterUpdate, UserService.AfterDelete;
    hide PermissionQuery, TeamQuery, PolicyQuery;
    match r {
      case CreateUser(user) => UserService.CreateIff(s, user);
      case UpdateUser(target, user) => UserService.UpdateStores(s, target, user, t);
      case DeleteUser(target, now) => UserService.DeleteIff(s, target, now);
    }
    SameTablesGrantAlike(s, t, other);
    SameMembershipsAlike(s, t, other);
  }

  lemma RolesGrant(s: Store, t: Store, user: Name, roles: set<Name>, p: Name)
    requires t == s.(users := t.users, teams := t.teams) && user in t.users && t.users[user].roles == roles
    ensures p in PermissionQuery(t, user) <==>
              exists r :: RoleHas(s, r, p)
                && (r in roles || exists a <- roles :: a in s.roles && r in s.roles[a].children)
  {
    hide PermissionQuery;
    QueryOnRoles(t, user, p);
    assert forall r :: RoleHas(t, r, p) <==> RoleHas(s, r, p);
  }

  lemma TeamsFound(s: Store, t: Store, user: Name, teams: seq<Name>, x: Name)
    requires t.teams.Keys == s.teams.Keys && forall y <- s.teams :: t.teams[y].children == s.teams[y].children
    requires forall y <- s.teams :: user in t.teams[y].members <==> y in teams
    ensures x in TeamQuery(t, user) <==>
              x in s.teams && (x in teams || exists c <- s.teams[x].children :: c in s.teams && c in teams)
  {
    hide TeamQuery;
    TeamQueryIff(t, user, x);
  }

  /** A user who is created or updated is granted what the submitted roles and their child roles have, and
      found in the submitted teams and the teams above them. */
  lemma WrittenUserIsGranted(s: Store, first: FunctionService.FirstRows, r: Request, t: Store, p: Name, x: Name)
    requires FunctionService.ListsFirst(s, first) && Answer(s, first, r) == Ok(t) && (r.CreateUser? || r.UpdateUser?)
    ensures p in PermissionQuery(t, Trim(r.user.username)) <==>
              exists a :: RoleHas(s, a, p)
                && (a in r.user.roles || exists b <- r.user.roles :: b in s.roles && a in s.roles[b].children)
    ensures x in TeamQuery(t, Trim(r.user.username)) <==>
              && x in s.teams
              && (x in r.user.teams || exists c <- s.teams[x].children :: c in s.teams && c in r.user.teams)
  {
    hide Trim, UserService.AfterCreate, UserService.AfterUpdate, PermissionQuery, TeamQuery, RoleHas;
    if r.CreateUser? {
      UserService.CreateIff(s, r.user);
    } else {
      UserService.UpdateStores(s, r.target, r.user, t);
    }
    RolesGrant(s, t, Trim(r.user.username), Elements(r.user.roles), p);
    TeamsFound(s, t, Trim(r.user.username), r.user.teams, x);
  }

  lemma NothingQueried(t: Store, user: Name)
    requires user in t.users ==> t.users[user].roles == {}
    requires forall x <- t.teams :: user !in t.teams[x].members
    ensures PermissionQuery(t, user) == {} && TeamQuery(t, user) == {} && PolicyQuery(t, user) == {}
  {
    assert RolesOf(t, user) == {} && TeamsOf(t, user) == {};
  }

  /** A user who is deleted is granted nothing and found nowhere, under the old name or the new. */
  lemma DeletedUserIsGrantedNothing(s: Store, first: FunctionService.FirstRows, target: Name, now: int, t: Store)
    requires WellFormed(s)
    requires FunctionService.ListsFirst(s, first) && Answer(s, first, DeleteUser(target, now)) == Ok(t)
    ensures forall user :: user == target || user == target + " - Deleted" ==>
              PermissionQuery(t, user) == {} && TeamQuery(t, user) == {} && PolicyQuery(t, user) == {}
  {
    hide UserService.AfterDelete, PermissionQuery, TeamQuery, PolicyQuery;
    UserService.DeleteIff(s, target, now);
    var gone := target + " - Deleted";
    assert |gone| != |target|;
    assert forall x <- t.teams :: target !in t.teams[x].members && gone !in t.teams[x].members;
    NothingQueried(t, target);
    NothingQueried(t, gone);
  }

  // ---- functions ----

  lemma NewFunctionGrantsNothing(s: Store, name: Name, fn: Function, user: Name)
    requires WellFormed(s) && name !in s.functions
    ensures PermissionQuery(s.(functions := s.functions[name := fn]), user) == PermissionQuery(s, user)
  {
    hide PermissionQuery;
    GrantedAlike(s, s.(functions := s.functions[name := fn]), user, user, r => r, r => r);
  }

  lemma NewRoleGrantsNothing(s: Store, name: Name, role: Role, user: Name)
    requires WellFormed(s) && name !in s.roles
    ensures PermissionQuery(s.(roles := s.roles[name := role]), user) == PermissionQuery(s, user)
  {
    hide PermissionQuery;
    var t := s.(roles := s.roles[name := role]);
    assert forall r :: Queried(t, user, r) <==> Queried(s, user, r);
    assert forall r :: Queried(s, user, r) ==> r != name;
    assert forall r, p :: r != name ==> (RoleHas(t, r, p) <==> RoleHas(s, r, p));
    hide Queried, RoleHas;
    forall p ensures p in PermissionQuery(t, user) <==> p in PermissionQuery(s, user) {
      QueryOnRoles(s, user, p);
      QueryOnRoles(t, user, p);
    }
  }

  /** Creating a function, a role or a team, or updating a team, changes nobody's permissions. */
  lemma CreationsGrantNothing(s: Store, first: FunctionService.FirstRows, r: Request, t: Store, user: Name)
    requires WellFormed(s) && FunctionService.ListsFirst(s, first) && Answer(s, first, r) == Ok(t)
    requires r.CreateFunction? || r.CreateRole? || r.CreateTeam? || r.UpdateTeam?
    ensures PermissionQuery(t, user) == PermissionQuery(s, user)
  {
    hide PermissionQuery, WellFormed, TeamService.AfterCreate, TeamService.AfterUpdate;
    match r {
      case CreateFunction(fn) => NewFunctionGrantsNothing(s, fn.name, t.functions[fn.name], user);
      case CreateRole(role) => NewRoleGrantsNothing(s, role.name, t.roles[role.name], user);
      case CreateTeam(team) =>
        TeamService.CreateIff(s, team);
        GrantedAlike(s, t, user, user, r => r, r => r);
      case UpdateTeam(target, team) =>
        TeamService.UpdateStores(s, target, team, t);
        GrantedAlike(s, t, user, user, r => r, r => r);
    }
  }

  /** A function as the service stores it under an update: the submitted one in the target's place. */
  predicate HasOnceUpdated(s: Store, target: Name, permissions: seq<Name>, r: Name, p: Name) {
    && r in s.roles && p in s.permissions
    && exists f <- s.roles[r].functions :: f in s.functions &&
         if f == target then p in permissions else p in s.functions[f].permissions
  }

  /** An updated function grants its submitted permissions, whatever its name, and the others what they did. */
  lemma UpdatedFunctionGrants(s: Store, first: FunctionService.FirstRows, target: Name,
                              fn: FunctionService.FunctionSubmit, t: Store, user: Name, p: Name)
    requires WellFormed(s) && FunctionService.ListsFirst(s, first)
    requires Answer(s, first, UpdateFunction(target, fn)) == Ok(t)
    ensures p in PermissionQuery(t, user) <==>
              exists r :: Queried(s, user, r) && HasOnceUpdated(s, target, fn.permissions, r, p)
  {
    hide PermissionQuery, FunctionService.AfterUpdate, RenameIn;
    assert target in s.functions && (fn.name == target || fn.name !in s.functions) by {
      UpdatedIsStored(s, first, target, fn, t);
    }
    FunctionService.UpdateStores(s, first, target, fn, t);
    QueryOnRoles(t, user, p);
    forall r ensures RoleHas(t, r, p) <==> HasOnceUpdated(s, target, fn.permissions, r, p) {
      if r in s.roles {
        RenamedHas(s, target, fn.name, t.functions, fn.permissions, r, p);
      }
    }
  }

  lemma UpdatedIsStored(s: Store, first: FunctionService.FirstRows, target: Name, fn: FunctionService.FunctionSubmit,
                        t: Store)
    requires FunctionService.ListsFirst(s, first) && FunctionService.AfterUpdate(s, first, target, fn) == Ok(t)
    ensures target in s.functions && (fn.name == target || fn.name !in s.functions)
  {
  }

  lemma RenamedHas(s: Store, target: Name, to: Name, after: map<Name, Function>, permissions: seq<Name>, r: Name,
                   p: Name)
    requires WellFormed(s) && r in s.roles && target in s.functions && (to == target || to !in s.functions)
    requires after.Keys == s.functions.Keys - {target} + {to} && after[to].permissions == Elements(permissions)
    requires forall f <- after :: f != to ==> after[f] == s.functions[f]
    ensures (exists f <- RenameIn(s.roles[r].functions, target, to) :: f in after && p in after[f].permissions) <==>
            exists f <- s.roles[r].functions :: f in s.functions &&
              if f == target then p in permissions else p in s.functions[f].permissions
  {
    var fs := s.roles[r].functions;
    if f :| f in RenameIn(fs, target, to) && f in after && p in after[f].permissions {
      RenameInIff(fs, target, to, f);
      assert Renamed(f, to, target) in fs;
    }
    if f :| f in fs && f in s.functions && if f == target then p in permissions else p in s.functions[f].permissions {
      RenameInIff(fs, target, to, Renamed(f, target, to));
      assert Renamed(f, target, to) in RenameIn(fs, target, to);
    }
  }

  /** A deleted function grants nothing any more, and the others what they did. */
  lemma DeletedFunctionIsRevoked(s: Store, first: FunctionService.FirstRows, target: Name, t: Store, user: Name,
                                 p: Name)
    requires FunctionService.ListsFirst(s, first) && Answer(s, first, DeleteFunction(target)) == Ok(t)
    ensures p in PermissionQuery(t, user) <==>
              exists r :: Queried(s, user, r) && HasOnceUpdated(s, target, [], r, p)
  {
    hide PermissionQuery, FunctionService.AfterDelete;
    FunctionService.DeleteIff(s, target);
    QueryOnRoles(t, user, p);
    forall r ensures RoleHas(t, r, p) <==> HasOnceUpdated(s, target, [], r, p) {
      if HasOnceUpdated(s, target, [], r, p) {
        var f :| f in s.roles[r].functions && f in s.functions && f != target && p in s.functions[f].permissions;
        assert f in t.roles[r].functions;
      }
    }
  }

  // ---- roles ----

  /** What a role has once an update is made: the target what the submitted functions have. */
  predicate RoleHasOnceUpdated(s: Store, target: Name, functions: seq<Name>, r: Name, p: Name) {
    if r == target then
      p in s.permissions && exists f <- functions :: f in s.functions && p in s.functions[f].permissions
    else RoleHas(s, r, p)
  }

  /** The roles the query looks at once an update is made: the target's children are the submitted ones, if
      any are, and the target itself is listed under its new name. */
  predicate QueriedOnceUpdated(s: Store, target: Name, submit: RoleService.RoleSubmit, user: Name, r: Name) {
    && user in s.users
    && (|| r in s.users[user].roles
        || exists a <- s.users[user].roles :: a in s.roles &&
             if a == target && submit.roles.Some? then Renamed(r, target, submit.name) in submit.roles.value
             else r in s.roles[a].children)
  }

  lemma UpdatedRoleHas(s: Store, target: Name, submit: RoleService.RoleSubmit, t: Store, r: Name, p: Name)
    requires RoleService.AfterUpdate(s, target, submit) == Ok(t) && r in s.roles
    ensures RoleHas(t, Renamed(r, target, submit.name), p) <==> RoleHasOnceUpdated(s, target, submit.functions, r, p)
  {
    hide RoleService.AfterUpdate, RenameIn;
    RoleService.UpdateIff(s, target, submit);
    RoleService.UpdateStores(s, target, submit, t);
  }

  lemma UpdatedRoleQueried(s: Store, target: Name, submit: RoleService.RoleSubmit, t: Store, user: Name, r: Name)
    requires WellFormed(s) && RoleService.AfterUpdate(s, target, submit) == Ok(t) && r in s.roles
    ensures Queried(t, user, Renamed(r, target, submit.name)) <==> QueriedOnceUpdated(s, target, submit, user, r)
  {
    hide RoleService.AfterUpdate, RenameIn;
    var to := submit.name;
    RoleService.UpdateIff(s, target, submit);
    RoleService.UpdateStores(s, target, submit, t);
    if user in s.users {
      var roles := s.users[user].roles;
      RenameInIff(roles, target, to, Renamed(r, target, to));
      forall a | a in s.roles
        ensures Renamed(a, target, to) in t.roles && (Renamed(a, target, to) in t.users[user].roles <==> a in roles)
        ensures Renamed(r, target, to) in t.roles[Renamed(a, target, to)].children <==>
                  if a == target && submit.roles.Some? then Renamed(r, target, to) in submit.roles.value
                  else r in s.roles[a].children
      {
        RenameInIff(roles, target, to, Renamed(a, target, to));
        RenameInIff(s.roles[a].children, target, to, Renamed(r, target, to));
      }
      if Queried(t, user, Renamed(r, target, to)) && r !in roles {
        var b :| b in t.users[user].roles && b in t.roles && Renamed(r, target, to) in t.roles[b].children;
        var a := Renamed(b, to, target);
        assert Renamed(a, target, to) == b && a in s.roles;
      }
      if QueriedOnceUpdated(s, target, submit, user, r) && r !in roles {
        var a :| a in roles && a in s.roles &&
          if a == target && submit.roles.Some? then Renamed(r, target, to) in submit.roles.value
          else r in s.roles[a].children;
        assert Renamed(a, target, to) in t.users[user].roles;
      }
    }
  }

  /** An updated role grants what the submitted functions and, if they are submitted, the submitted child
      roles have, to everyone who had the role or a parent of it; other roles grant what they did. */
  lemma UpdatedRoleGrants(s: Store, first: FunctionService.FirstRows, target: Name, submit: RoleService.RoleSubmit,
                          t: Store, user: Name, p: Name)
    requires WellFormed(s) && FunctionService.ListsFirst(s, first)
    requires Answer(s, first, UpdateRole(target, submit)) == Ok(t)
    ensures p in PermissionQuery(t, user) <==>
              exists r :: QueriedOnceUpdated(s, target, submit, user, r)
                          && RoleHasOnceUpdated(s, target, submit.functions, r, p)
  {
    hide PermissionQuery, RoleService.AfterUpdate, Queried, QueriedOnceUpdated, RoleHasOnceUpdated, WellFormed;
    var to := submit.name;
    RoleService.UpdateIff(s, target, submit);
    RoleService.UpdateStores(s, target, submit, t);
    QueryOnRoles(t, user, p);
    forall r | r in s.roles
      ensures RoleHas(t, Renamed(r, target, to), p) <==> RoleHasOnceUpdated(s, target, submit.functions, r, p)
      ensures Queried(t, user, Renamed(r, target, to)) <==> QueriedOnceUpdated(s, target, submit, user, r)
    {
      UpdatedRoleHas(s, target, submit, t, r, p);
      UpdatedRoleQueried(s, target, submit, t, user, r);
    }
    if r :| Queried(t, user, r) && RoleHas(t, r, p) {
      var before := Renamed(r, to, target);
      assert before in s.roles && Renamed(before, target, to) == r;
    }
    if r :| QueriedOnceUpdated(s, target, submit, user, r) && RoleHasOnceUpdated(s, target, submit.functions, r, p) {
      HasIsStored(s, target, submit.functions, r, p);
      assert Queried(t, user, Renamed(r, target, to));
    }
  }

  lemma HasIsStored(s: Store, target: Name, functions: seq<Name>, r: Name, p: Name)
    requires RoleHasOnceUpdated(s, target, functions, r, p) && target in s.roles
    ensures r in s.roles
  {
  }

  // ---- starts ----

  /** The administrator whom a start makes, with the role and the function it makes, is granted exactly the
      two permissions it makes. */
  lemma NewAdminIsGranted(s: Store, first: FunctionService.FirstRows, texts: Bootstrap.Texts, t: Store)
    requires FunctionService.ListsFirst(s, first) && Answer(s, first, Restart(texts, true)) == Ok(t)
    requires Bootstrap.FUNCTION !in s.functions && Bootstrap.ROLE !in s.roles && Bootstrap.ADMIN !in s.users
    ensures PermissionQuery(t, Bootstrap.ADMIN) == {Bootstrap.UPDATE, Bootstrap.READ}
  {
    hide Bootstrap.APPLICATION, Bootstrap.APP_FUNCTION, Bootstrap.FUNCTION, Bootstrap.UPDATE, Bootstrap.READ;
    hide Bootstrap.ROLE, Bootstrap.ADMIN, Bootstrap.ADMIN_PROFILE, Bootstrap.AfterBootstrap, PermissionQuery;
    Bootstrap.StartStores(s, texts, true, t);
    forall p ensures p in PermissionQuery(t, Bootstrap.ADMIN) <==> p in {Bootstrap.UPDATE, Bootstrap.READ} {
      QueryOnRoles(t, Bootstrap.ADMIN, p);
      assert Queried(t, Bootstrap.ADMIN, Bootstrap.ROLE);
      assert forall r :: Queried(t, Bootstrap.ADMIN, r) ==> r == Bootstrap.ROLE;
      assert RoleHas(t, Bootstrap.ROLE, p) <==> p in {Bootstrap.UPDATE, Bootstrap.READ};
    }
  }

  // ---- runs ----

  /** The request can make a user of the name. */
  predicate Makes(r: Request, user: Name) {
    match r
    case CreateUser(submit) => Trim(submit.username) == user
    case UpdateUser(target, submit) => Trim(submit.username) == user
    case DeleteUser(target, now) => target + " - Deleted" == user
    case ApplyContract(c) => exists d <- c.defaults, u <- d.users :: Trim(u.name) == user
    case Restart(texts, created) => created && user == Bootstrap.ADMIN
    case _ => false
  }

  lemma {:induction false} DeclaredUsersOnly(s: Store, ds: seq<Entry<UserBody>>, t: Store, user: Name)
    requires AfterUsers(s, ds) == Ok(t) && user in t.users && user !in s.users
    ensures exists d <- ds :: Trim(d.name) == user
    decreases |ds|
  {
    if ds != [] {
      hide Trim;
      var u := AfterUser(s, ds[0]).value;
      if user in u.users {
        assert Trim(ds[0].name) == user;
      } else {
        DeclaredUsersOnly(u, ds[1..], t, user);
      }
    }
  }

  lemma {:induction false} ApplicationsMakeNoUser(s: Store, ds: seq<Entry<seq<Entry<FunctionBody>>>>, t: Store)
    requires AfterApplications(s, ds) == Ok(t)
    ensures t.users == s.users
    decreases |ds|
  {
    if ds != [] {
      ApplicationsMakeNoUser(AfterApplication(s, ds[0]).value, ds[1..], t);
    }
  }

  lemma DefaultsMakeDeclaredUsers(s: Store, d: DefaultConfiguration, t: Store, user: Name)
    requires AfterDefaults(s, d) == Ok(t) && user in t.users && user !in s.users
    ensures exists u <- d.users :: Trim(u.name) == user
  {
    hide AfterApplications, AfterUsers, AfterTeams, AfterRoleList, Trim;
    var a := AfterApplications(s, d.applications).value;
    var r := AfterRoles(a, d.roles).value;
    var u := AfterUsers(r, d.users).value;
    ApplicationsMakeNoUser(s, d.applications, a);
    var b := AfterRoleList(a, RolesWhere(false, d.roles)).value;
    RolesSection.RoleListFrame(a, RolesWhere(false, d.roles), b);
    RolesSection.RoleListFrame(b, RolesWhere(true, d.roles), r);
    TeamsSection.TeamsFrame(u, d.teams, t);
    DeclaredUsersOnly(r, d.users, u, user);
  }

  lemma {:induction false} DefaultListMakesDeclaredUsers(s: Store, ds: seq<DefaultConfiguration>, t: Store, user: Name)
    requires SecurityContract.AfterDefaultList(s, ds) == Ok(t) && user in t.users && user !in s.users
    ensures exists d <- ds, u <- d.users :: Trim(u.name) == user
    decreases |ds|
  {
    if ds != [] {
      hide AfterDefaults, Trim;
      var u := AfterDefaults(s, ds[0]).value;
      if user in u.users {
        DefaultsMakeDeclaredUsers(s, ds[0], u, user);
      } else {
        DefaultListMakesDeclaredUsers(u, ds[1..], t, user);
      }
    }
  }

  lemma ContractMakesDeclaredUsers(s: Store, c: SecurityContract.Contract, t: Store, user: Name)
    requires SecurityContract.AfterContract(s, c) == Ok(t) && user in t.users && user !in s.users
    ensures exists d <- c.defaults, u <- d.users :: Trim(u.name) == user
  {
    var a := SecurityContract.AfterResourceServers(s, c.applications).value;
    SecurityContract.ResourceServersFrame(s, c.applications, a);
    DefaultListMakesDeclaredUsers(a, c.defaults, t, user);
  }

  lemma OnlyMakersMake(s: Store, first: FunctionService.FirstRows, r: Request, t: Store, user: Name)
    requires FunctionService.ListsFirst(s, first) && Answer(s, first, r) == Ok(t)
    requires user in t.users && user !in s.users
    ensures Makes(r, user)
  {
    hide Trim, UserService.AfterCreate, UserService.AfterUpdate, UserService.AfterDelete;
    hide RoleService.AfterUpdate, RoleService.AfterCreate, TeamService.AfterCreate, TeamService.AfterUpdate;
    hide FunctionService.AfterCreate, FunctionService.AfterUpdate, FunctionService.AfterDelete;
    hide SecurityContract.AfterContract, Bootstrap.AfterBootstrap;
    match r {
      case CreateRole(role) => RoleService.CreateIff(s, role);
      case UpdateRole(target, role) => RoleService.UpdateStores(s, target, role, t);
      case CreateTeam(team) => TeamService.CreateIff(s, team);
      case UpdateTeam(target, team) => TeamService.UpdateStores(s, target, team, t);
      case CreateUser(submit) => UserService.CreateIff(s, submit);
      case UpdateUser(target, submit) => UserService.UpdateStores(s, target, submit, t);
      case DeleteUser(target, now) => UserService.DeleteIff(s, target, now);
      case CreateFunction(fn) => FunctionAnswersKeep(s, first, r, t);
      case UpdateFunction(target, fn) => FunctionAnswersKeep(s, first, r, t);
      case DeleteFunction(target) => FunctionAnswersKeep(s, first, r, t);
      case ApplyContract(c) => ContractMakesDeclaredUsers(s, c, t, user);
      case Restart(texts, created) => Bootstrap.StartStores(s, texts, created, t);
    }
  }

  /** Whatever else happens in a run: a user who is not there has no permissions until a request, a contract
      or a start makes a user of that name. */
  lemma {:induction false} GoneUntilMade(trace: seq<Store>, requests: seq<Request>, i: nat, j: nat, user: Name)
    requires IsRun(trace, requests) && i <= j < |trace| && user !in trace[i].users
    requires forall k :: i <= k < j ==> !Makes(requests[k], user)
    ensures user !in trace[j].users && PermissionQuery(trace[j], user) == {}
    decreases j - i
  {
    hide Step, Makes, Answer;
    if i < j {
      var s, t := trace[i], trace[i + 1];
      assert Step(s, requests[i], t);
      if user in t.users {
        StepMakes(s, requests[i], t, user);
      }
      GoneUntilMade(trace, requests, i + 1, j, user);
    }
  }

  lemma StepMakes(s: Store, r: Request, t: Store, user: Name)
    requires Step(s, r, t) && user in t.users && user !in s.users
    ensures Makes(r, user)
  {
    hide Answer, Makes;
    var first :| FunctionService.ListsFirst(s, first)
                 && t == if Answer(s, first, r).Ok? then Answer(s, first, r).value else s;
    OnlyMakersMake(s, first, r, t, user);
  }
}
