/** The claims the identity server puts into a token, and the check of a required permission. */
module Claims {
  import opened Results
  import opened Entries
  import opened Model
  import opened Graphs
  import opened Invariants

  datatype Claim = Claim(kind: string, value: Text)

  const PERMISSION := "permission"
  const POLICY := "dataPolicy"
  const TEAM := "team"

  // ---- the queries ----

  function RolesOf(s: Store, user: Name): set<Name> {
    if user in s.users then s.users[user].roles else {}
  }

  function Children(g: Graph, xs: set<Name>): set<Name> {
    set a, b | a in xs && a in g && b in g[a] :: b
  }

  /** The joins from roles over functions to permissions. */
  function PermissionsOf(s: Store, roles: set<Name>): set<Name> {
    set r, f, p | r in roles && r in s.roles && f in s.roles[r].functions && f in s.functions
                  && p in s.functions[f].permissions && p in s.permissions :: p
  }

  /** The two branches of the query: the user's roles, and the child roles of the user's roles. */
  function PermissionQuery(s: Store, user: Name): set<Name> {
    PermissionsOf(s, RolesOf(s, user)) + PermissionsOf(s, Children(RoleGraph(s), RolesOf(s, user)))
  }

  function TeamsOf(s: Store, user: Name): set<Name> {
    set t | t in s.teams && user in s.teams[t].members
  }

  function ParentTeams(s: Store, teams: set<Name>): set<Name> {
    set t | t in s.teams && exists c <- s.teams[t].children :: c in teams
  }

  function TeamQuery(s: Store, user: Name): set<Name> {
    TeamsOf(s, user) + ParentTeams(s, TeamsOf(s, user))
  }

  function PoliciesOf(s: Store, teams: set<Name>): set<Name> {
    set t, p | t in teams && t in s.teams && p in s.teams[t].policies && p in s.dataPolicies :: p
  }

  function PolicyQuery(s: Store, user: Name): set<Name> {
    PoliciesOf(s, TeamsOf(s, user)) + PoliciesOf(s, ParentTeams(s, TeamsOf(s, user)))
  }

  // ---- what the queries are meant to compute ----

  /** A function of the role has the permission: one row of each table joined. */
  predicate RoleHas(s: Store, r: Name, p: Name) {
    r in s.roles && p in s.permissions
    && exists f <- s.roles[r].functions :: f in s.functions && p in s.functions[f].permissions
  }

  /** Some role reached from one of the user's roles, in any number of steps, has the permission. */
  ghost predicate Grants(s: Store, user: Name, p: Name) {
    user in s.users && exists a, r :: a in s.users[user].roles && Reaches(RoleGraph(s), a, r) && RoleHas(s, r, p)
  }

  /** The user is a member of the team or of a team below it. */
  ghost predicate Belongs(s: Store, user: Name, t: Name) {
    exists c <- s.teams :: user in s.teams[c].members && t in s.teams && Reaches(TeamGraph(s), t, c)
  }

  // ---- the queries on the tables ----

  /** A permission is granted when it is stored and a function has it whose role is the user's or a child of
      one of the user's. */
  lemma PermissionQueryIff(s: Store, user: Name, p: Name)
    ensures p in PermissionQuery(s, user) <==>
              && user in s.users && p in s.permissions
              && exists r, f ::
                   && r in s.roles && f in s.roles[r].functions && f in s.functions && p in s.functions[f].permissions
                   && (r in s.users[user].roles
                       || exists a <- s.users[user].roles :: a in s.roles && r in s.roles[a].children)
  {
    hide PermissionsOf, Children, RoleHas;
    var g, xs := RoleGraph(s), RolesOf(s, user);
    PermissionsOfIff(s, xs, p);
    PermissionsOfIff(s, Children(g, xs), p);
    forall r
      ensures r in Children(g, xs) <==>
                (user in s.users && exists a <- s.users[user].roles :: a in s.roles && r in s.roles[a].children)
    {
      ChildrenIff(g, xs, r);
    }
    forall r
      ensures RoleHas(s, r, p) <==>
                (p in s.permissions && exists f ::
                   r in s.roles && f in s.roles[r].functions && f in s.functions && p in s.functions[f].permissions)
    {
      RoleHasOnTables(s, r, p);
    }
  }

  lemma RoleHasOnTables(s: Store, r: Name, p: Name)
    ensures RoleHas(s, r, p) <==>
              (p in s.permissions && exists f ::
                 r in s.roles && f in s.roles[r].functions && f in s.functions && p in s.functions[f].permissions)
  {
  }

  lemma PermissionsOfIff(s: Store, roles: set<Name>, p: Name)
    ensures p in PermissionsOf(s, roles) <==> exists r <- roles :: RoleHas(s, r, p)
  {
  }

  lemma ChildrenIff(g: Graph, xs: set<Name>, b: Name)
    ensures b in Children(g, xs) <==> exists a <- xs :: a in g && b in g[a]
  {
  }

  /** A team is found when the user is a member of it or of one of its child teams. */
  lemma TeamQueryIff(s: Store, user: Name, t: Name)
    ensures t in TeamQuery(s, user) <==>
              && t in s.teams
              && (user in s.teams[t].members
                  || exists c <- s.teams[t].children :: c in s.teams && user in s.teams[c].members)
  {
  }

  /** A policy is found when it is stored and a team has it that the user is a member of, or of one of its
      child teams. */
  lemma PolicyQueryIff(s: Store, user: Name, p: Name)
    ensures p in PolicyQuery(s, user) <==>
              && p in s.dataPolicies
              && exists t <- s.teams ::
                   && p in s.teams[t].policies
                   && (user in s.teams[t].members
                       || exists c <- s.teams[t].children :: c in s.teams && user in s.teams[c].members)
  {
    hide TeamsOf, ParentTeams;
    forall t ensures t in TeamsOf(s, user) + ParentTeams(s, TeamsOf(s, user)) <==> t in TeamQuery(s, user) {
    }
    forall t { TeamQueryIff(s, user, t); }
  }

  ghost predicate ReachedFrom(g: Graph, xs: set<Name>, b: Name) {
    exists a :: a in xs && Reaches(g, a, b)
  }

  lemma NoStep(g: Graph, a: Name)
    ensures Reaches(g, a, a)
  {
    assert Path(g, [a]);
  }

  lemma OneStep(g: Graph, a: Name, b: Name)
    requires Edge(g, a, b)
    ensures Reaches(g, a, b)
  {
    assert Path(g, [a, b]);
  }

  lemma TwoSteps(g: Graph, a: Name, b: Name, c: Name)
    requires Edge(g, a, b) && Edge(g, b, c)
    ensures Reaches(g, a, c)
  {
    assert Path(g, [a, b, c]);
  }

  lemma OneLevelPathsAreShort(g: Graph, p: seq<Name>)
    requires OneLevel(g) && Path(g, p)
    ensures |p| <= 2
  {
    assert |p| > 2 ==> Edge(g, p[0], p[1]) && Edge(g, p[1], p[2]);
  }

  lemma {:induction false} PathStaysIn(g: Graph, xs: set<Name>, p: seq<Name>, i: nat)
    requires Path(g, p) && i < |p| && p[0] in xs && Children(g, xs) <= xs
    ensures p[i] in xs
  {
    if i > 0 {
      PathStaysIn(g, xs, p, i - 1);
      assert Edge(g, p[i - 1], p[i]);
    }
  }

  /** One hop reaches everything exactly when a second hop adds nothing. */
  lemma OneHopReachesAllIff(g: Graph, xs: set<Name>)
    ensures var hop := xs + Children(g, xs);
            (forall b :: ReachedFrom(g, xs, b) ==> b in hop) <==> Children(g, hop) <= hop
  {
    var hop := xs + Children(g, xs);
    if Children(g, hop) <= hop {
      forall b | ReachedFrom(g, xs, b) ensures b in hop {
        var a :| a in xs && Reaches(g, a, b);
        var p :| Path(g, p) && p[0] == a && p[|p| - 1] == b;
        PathStaysIn(g, hop, p, |p| - 1);
      }
    }
    if forall b :: ReachedFrom(g, xs, b) ==> b in hop {
      forall c <- Children(g, hop) ensures c in hop {
        var b :| b in hop && b in g && c in g[b];
        if b in xs {
          OneStep(g, b, c);
        } else {
          var a :| a in xs && a in g && b in g[a];
          TwoSteps(g, a, b, c);
        }
        assert ReachedFrom(g, xs, c);
      }
    }
  }

  lemma OneHopIsReached(g: Graph, xs: set<Name>, b: Name)
    requires b in xs + Children(g, xs)
    ensures ReachedFrom(g, xs, b)
  {
    if b in xs {
      NoStep(g, b);
    } else {
      var a :| a in xs && a in g && b in g[a];
      OneStep(g, a, b);
    }
  }

  /** The query never grants what no reachable role has. */
  lemma QueryIsGranted(s: Store, user: Name, p: Name)
    requires p in PermissionQuery(s, user)
    ensures Grants(s, user, p)
  {
    hide PermissionsOf, Children, RoleHas;
    var g, xs := RoleGraph(s), RolesOf(s, user);
    PermissionsOfIff(s, xs, p);
    PermissionsOfIff(s, Children(g, xs), p);
    var r :| r in xs + Children(g, xs) && RoleHas(s, r, p);
    OneHopIsReached(g, xs, r);
  }

  lemma HopIsQueried(s: Store, user: Name, r: Name, p: Name)
    requires r in RolesOf(s, user) + Children(RoleGraph(s), RolesOf(s, user)) && RoleHas(s, r, p)
    ensures p in PermissionQuery(s, user)
  {
    hide PermissionsOf, Children, RoleHas;
    PermissionsOfIff(s, RolesOf(s, user), p);
    PermissionsOfIff(s, Children(RoleGraph(s), RolesOf(s, user)), p);
  }

  /** Where no child role has children, the query is the closure. */
  lemma QueryIsClosure(s: Store, user: Name, p: Name)
    requires OneLevel(RoleGraph(s))
    ensures p in PermissionQuery(s, user) <==> Grants(s, user, p)
  {
    var g, xs := RoleGraph(s), RolesOf(s, user);
    if Grants(s, user, p) {
      var a, r :| a in xs && Reaches(g, a, r) && RoleHas(s, r, p);
      var path :| Path(g, path) && path[0] == a && path[|path| - 1] == r;
      OneLevelPathsAreShort(g, path);
      assert |path| == 2 ==> Edge(g, path[0], path[1]);
      assert r in xs || r in Children(g, xs);
      HopIsQueried(s, user, r, p);
    }
    if p in PermissionQuery(s, user) {
      QueryIsGranted(s, user, p);
    }
  }

  /** More generally, the query is the closure when a second hop adds no role. */
  lemma QueryIsClosureIfNoDeeperRole(s: Store, user: Name, p: Name)
    requires var hop := RolesOf(s, user) + Children(RoleGraph(s), RolesOf(s, user)); Children(RoleGraph(s), hop) <= hop
    ensures p in PermissionQuery(s, user) <==> Grants(s, user, p)
  {
    var g, xs := RoleGraph(s), RolesOf(s, user);
    OneHopReachesAllIff(g, xs);
    if Grants(s, user, p) {
      var a, r :| a in xs && Reaches(g, a, r) && RoleHas(s, r, p);
      assert ReachedFrom(g, xs, r);
      HopIsQueried(s, user, r, p);
    }
    if p in PermissionQuery(s, user) {
      QueryIsGranted(s, user, p);
    }
  }

  /** A permission two steps down that nothing nearer has is missed. */
  lemma DeepPermissionIsMissed(s: Store, user: Name, a: Name, b: Name, c: Name, p: Name)
    requires a in RolesOf(s, user) && Edge(RoleGraph(s), a, b) && Edge(RoleGraph(s), b, c) && RoleHas(s, c, p)
    requires forall r <- s.roles :: r != c ==> !RoleHas(s, r, p)
    requires c !in RolesOf(s, user) + Children(RoleGraph(s), RolesOf(s, user))
    ensures Grants(s, user, p) && p !in PermissionQuery(s, user)
  {
    hide PermissionsOf, Children;
    TwoSteps(RoleGraph(s), a, b, c);
    PermissionsOfIff(s, RolesOf(s, user), p);
    PermissionsOfIff(s, Children(RoleGraph(s), RolesOf(s, user)), p);
  }

  /** The team query finds members' teams and their parents, and in a one-level graph these are all
      the teams above. */
  lemma TeamQueryIsClosure(s: Store, user: Name, t: Name)
    ensures t in TeamQuery(s, user) ==> Belongs(s, user, t)
    ensures OneLevel(TeamGraph(s)) ==> (t in TeamQuery(s, user) <==> Belongs(s, user, t))
  {
    var g := TeamGraph(s);
    if t in TeamsOf(s, user) {
      NoStep(g, t);
    } else if t in TeamQuery(s, user) {
      var c :| c in s.teams[t].children && c in TeamsOf(s, user);
      OneStep(g, t, c);
    }
    if OneLevel(g) && Belongs(s, user, t) {
      var c :| c in TeamsOf(s, user) && t in s.teams && Reaches(g, t, c);
      var path :| Path(g, path) && path[0] == t && path[|path| - 1] == c;
      OneLevelPathsAreShort(g, path);
      assert |path| == 2 ==> Edge(g, path[0], path[1]);
    }
  }

  /** The policies are exactly those of the teams of the team query; child teams of the user's teams
      contribute nothing. */
  lemma PoliciesAreThoseOfTheTeams(s: Store, user: Name)
    ensures PolicyQuery(s, user) == PoliciesOf(s, TeamQuery(s, user))
  {
  }

  // ---- generating the claims ----

  class ClaimList {
    var claims: seq<Claim>

    constructor (claims: seq<Claim>)
      ensures this.claims == claims
    {
      this.claims := claims;
    }
  }

  function Values(claims: seq<Claim>, kind: string): set<Text> {
    set c | c in claims && c.kind == kind :: c.value
  }

  /** `after` is `before` and, once each, a claim for every value that had none. */
  predicate Adds(before: seq<Claim>, after: seq<Claim>, kind: string, values: set<Text>) {
    && before <= after
    && (forall i :: |before| <= i < |after| ==> after[i].kind == kind && after[i] !in after[..i])
    && Values(after, kind) == Values(before, kind) + values
  }

  lemma ValuesAppend(claims: seq<Claim>, c: Claim, kind: string)
    ensures Values(claims + [c], kind) == Values(claims, kind) + if c.kind == kind then {c.value} else {}
  {
  }

  lemma OtherKindsStay(before: seq<Claim>, after: seq<Claim>, kind: string, values: set<Text>, other: string)
    requires Adds(before, after, kind, values) && other != kind
    ensures Values(after, other) == Values(before, other)
  {
    forall c <- after | c.kind == other ensures c in before {
      var i :| 0 <= i < |after| && after[i] == c;
      assert i < |before| && before[i] == after[i];
    }
    assert forall c <- before :: c in after;
  }

  lemma AddsNothing(claims: seq<Claim>, kind: string)
    ensures Adds(claims, claims, kind, {})
  {
  }

  /** One round of the loops: the claim is added unless it exists. */
  lemma AddsOneMore(before: seq<Claim>, after: seq<Claim>, kind: string, values: set<Text>, value: Text)
    requires Adds(before, after, kind, values)
    ensures var more := if Claim(kind, value) in after then after else after + [Claim(kind, value)];
            Adds(before, more, kind, values + {value})
  {
    if Claim(kind, value) !in after {
      ValuesAppend(after, Claim(kind, value), kind);
      var next := after + [Claim(kind, value)];
      forall i | |before| <= i < |next| ensures next[i].kind == kind && next[i] !in next[..i] {
        assert next[..i] == after[..i];
      }
    }
  }

  lemma RowAdded(before: seq<Claim>, after: seq<Claim>, kind: string, rows: seq<Text>, i: nat)
    requires i < |rows| && Adds(before, after, kind, Elements(rows[..i]))
    ensures var more := if Claim(kind, rows[i]) in after then after else after + [Claim(kind, rows[i])];
            Adds(before, more, kind, Elements(rows[..i + 1]))
  {
    hide Adds;
    AddsOneMore(before, after, kind, Elements(rows[..i]), rows[i]);
    assert Elements(rows[..i + 1]) == Elements(rows[..i]) + {rows[i]};
  }

  method GeneratePermissionClaims(list: ClaimList, db: A3SContext, user: Name)
    modifies list
    ensures Adds(old(list.claims), list.claims, PERMISSION, PermissionQuery(db.State(), user))
  {
    hide Adds, PermissionQuery, PERMISSION;
    var rows := Listing(PermissionQuery(db.State(), user));
    AddsNothing(list.claims, PERMISSION);
    assert Elements(rows[..0]) == {};
    for i := 0 to |rows|
      invariant Adds(old(list.claims), list.claims, PERMISSION, Elements(rows[..i]))
    {
      RowAdded(old(list.claims), list.claims, PERMISSION, rows, i);
      if Claim(PERMISSION, rows[i]) !in list.claims {
        list.claims := list.claims + [Claim(PERMISSION, rows[i])];
      }
    }
    assert rows[..|rows|] == rows;
  }

  method GeneratePolicyClaims(list: ClaimList, db: A3SContext, user: Name)
    modifies list
    ensures Adds(old(list.claims), list.claims, POLICY, PolicyQuery(db.State(), user))
  {
    hide Adds, PolicyQuery, POLICY;
    var rows := Listing(PolicyQuery(db.State(), user));
    AddsNothing(list.claims, POLICY);
    assert Elements(rows[..0]) == {};
    for i := 0 to |rows|
      invariant Adds(old(list.claims), list.claims, POLICY, Elements(rows[..i]))
    {
      RowAdded(old(list.claims), list.claims, POLICY, rows, i);
      if Claim(POLICY, rows[i]) !in list.claims {
        list.claims := list.claims + [Claim(POLICY, rows[i])];
      }
    }
    assert rows[..|rows|] == rows;
  }

  /** The identifiers the database gave to the teams. */
  type TeamIds = Name -> Text

  /** A team is skipped if its name occurs as the value of a team claim, but claims carry the
      identifier. */
  function AddTeams(claims: seq<Claim>, rows: seq<Name>, ids: TeamIds): seq<Claim>
    decreases |rows|
  {
    if rows == [] then claims
    else
      var more := if Claim(TEAM, rows[0]) in claims then claims else claims + [Claim(TEAM, ids(rows[0]))];
      AddTeams(more, rows[1..], ids)
  }

  method GenerateTeamClaims(list: ClaimList, db: A3SContext, user: Name, ids: TeamIds) returns (ghost rows: seq<Name>)
    modifies list
    ensures Elements(rows) == TeamQuery(db.State(), user) && Distinct(rows)
    ensures list.claims == AddTeams(old(list.claims), rows, ids)
  {
    var teams := Listing(TeamQuery(db.State(), user));
    for i := 0 to |teams|
      invariant AddTeams(old(list.claims), teams, ids) == AddTeams(list.claims, teams[i..], ids)
    {
      if Claim(TEAM, teams[i]) !in list.claims {
        list.claims := list.claims + [Claim(TEAM, ids(teams[i]))];
      }
    }
    rows := teams;
  }

  function Identifiers(teams: seq<Name>, ids: TeamIds): seq<Claim> {
    seq(|teams|, i requires 0 <= i < |teams| => Claim(TEAM, ids(teams[i])))
  }

  /** The teams whose names are not values already. */
  function Unclaimed(rows: seq<Name>, values: set<Text>): seq<Name> {
    if rows == [] then []
    else (if rows[0] in values then [] else [rows[0]]) + Unclaimed(rows[1..], values)
  }

  lemma {:induction false} UnclaimedStay(rows: seq<Name>, values: set<Text>, value: Text)
    requires value !in rows
    ensures Unclaimed(rows, values + {value}) == Unclaimed(rows, values)
  {
    if rows != [] {
      UnclaimedStay(rows[1..], values, value);
    }
  }

  lemma IdentifiersSplit(t: Name, more: seq<Name>, ids: TeamIds)
    ensures Identifiers([t] + more, ids) == [Claim(TEAM, ids(t))] + Identifiers(more, ids)
  {
    hide TEAM;
  }

  lemma ClaimedIff(claims: seq<Claim>, value: Text)
    ensures Claim(TEAM, value) in claims <==> value in Values(claims, TEAM)
    ensures Values(claims + [Claim(TEAM, value)], TEAM) == Values(claims, TEAM) + {value}
  {
    ValuesAppend(claims, Claim(TEAM, value), TEAM);
  }

  /** A team of the query gets its claim unless its name is a value already, if no identifier is a team's
      name. */
  lemma {:induction false} TeamsAreClaimed(claims: seq<Claim>, rows: seq<Name>, ids: TeamIds)
    requires forall t <- rows, u <- rows :: ids(t) != u
    ensures AddTeams(claims, rows, ids) == claims + Identifiers(Unclaimed(rows, Values(claims, TEAM)), ids)
    decreases |rows|
  {
    hide TEAM, Values;
    if rows == [] {
      assert claims + Identifiers([], ids) == claims;
    } else {
      var t, rest, values := rows[0], rows[1..], Values(claims, TEAM);
      assert forall u <- rest :: u in rows;
      ClaimedIff(claims, t);
      if t in values {
        TeamsAreClaimed(claims, rest, ids);
        assert [] + Unclaimed(rest, values) == Unclaimed(rest, values);
      } else {
        ClaimedIff(claims, ids(t));
        TeamsAreClaimed(claims + [Claim(TEAM, ids(t))], rest, ids);
        UnclaimedStay(rest, values, ids(t));
        hide Identifiers;
        IdentifiersSplit(t, Unclaimed(rest, values), ids);
      }
    }
  }

  lemma {:induction false} AllUnclaimed(rows: seq<Name>, values: set<Text>)
    requires values !! Elements(rows)
    ensures Unclaimed(rows, values) == rows
  {
    if rows != [] {
      assert rows[0] in Elements(rows) && Elements(rows[1..]) <= Elements(rows);
      AllUnclaimed(rows[1..], values);
    }
  }

  /** Every team of the query gets its claim, if no identifier and no value is a team's name. */
  lemma TeamsAreAllClaimed(claims: seq<Claim>, rows: seq<Name>, ids: TeamIds)
    requires Values(claims, TEAM) !! Elements(rows)
    requires forall t <- rows, u <- rows :: ids(t) != u
    ensures AddTeams(claims, rows, ids) == claims + Identifiers(rows, ids)
  {
    AllUnclaimed(rows, Values(claims, TEAM));
    TeamsAreClaimed(claims, rows, ids);
  }

  lemma {:induction false} TeamsAddOnlyTeams(claims: seq<Claim>, rows: seq<Name>, ids: TeamIds, kind: string)
    requires kind != TEAM
    ensures Values(AddTeams(claims, rows, ids), kind) == Values(claims, kind)
    decreases |rows|
  {
    if rows != [] {
      ValuesAppend(claims, Claim(TEAM, ids(rows[0])), kind);
      var more := if Claim(TEAM, rows[0]) in claims then claims else claims + [Claim(TEAM, ids(rows[0]))];
      TeamsAddOnlyTeams(more, rows[1..], ids, kind);
    }
  }

  function Requested(claims: seq<Claim>, kinds: set<string>): seq<Claim> {
    if claims == [] then []
    else (if claims[0].kind in kinds then [claims[0]] else []) + Requested(claims[1..], kinds)
  }

  /** The claims of the principal whose kind is requested, as often as it has them. */
  lemma {:induction false} RequestedExactly(claims: seq<Claim>, kinds: set<string>, c: Claim)
    ensures multiset(Requested(claims, kinds))[c] == if c.kind in kinds then multiset(claims)[c] else 0
  {
    if claims != [] {
      RequestedExactly(claims[1..], kinds, c);
      assert claims == [claims[0]] + claims[1..];
    }
  }

  function Contact(email: Option<Text>, name: Option<Text>): seq<Claim> {
    (if email.Some? then [Claim("email", email.value)] else [])
    + (if name.Some? then [Claim("username", name.value)] else [])
  }

  /** The claims issued for a user, up to the order of the rows of each query. */
  ghost predicate IsProfile(s: Store, user: Name, base: seq<Claim>, ids: TeamIds, contact: seq<Claim>,
                            issued: seq<Claim>) {
    exists a, b, rows ::
      && Adds(base, a, PERMISSION, PermissionQuery(s, user))
      && Adds(a, b, POLICY, PolicyQuery(s, user))
      && Elements(rows) == TeamQuery(s, user) && Distinct(rows)
      && issued == AddTeams(b, rows, ids) + contact
  }

  method GetProfileData(db: A3SContext, user: Name, principal: seq<Claim>, kinds: set<string>, ids: TeamIds,
                        email: Option<Text>, name: Option<Text>)
    returns (issued: seq<Claim>)
    ensures IsProfile(db.State(), user, Requested(principal, kinds), ids, Contact(email, name), issued)
  {
    hide Adds, AddTeams, PermissionQuery, PolicyQuery, TeamQuery;
    ghost var s := db.State();
    var claims := [];
    for i := 0 to |principal|
      invariant Requested(principal, kinds) == claims + Requested(principal[i..], kinds)
    {
      if principal[i].kind in kinds {
        claims := claims + [principal[i]];
      }
    }
    assert Requested(principal, kinds) == claims;
    var list := new ClaimList(claims);
    GeneratePermissionClaims(list, db, user);
    ghost var a := list.claims;
    GeneratePolicyClaims(list, db, user);
    ghost var b := list.claims;
    ghost var rows := GenerateTeamClaims(list, db, user, ids);
    ghost var teams := list.claims;
    if email.Some? {
      list.claims := list.claims + [Claim("email", email.value)];
    }
    if name.Some? {
      list.claims := list.claims + [Claim("username", name.value)];
    }
    issued := list.claims;
    assert issued == AddTeams(b, rows, ids) + Contact(email, name);
    assert Adds(claims, a, PERMISSION, PermissionQuery(s, user)) && Adds(a, b, POLICY, PolicyQuery(s, user));
    assert Elements(rows) == TeamQuery(s, user) && Distinct(rows);
  }

  // ---- checking a permission ----

  /** The requirement is met by the first claim, or any later one, that names the permission. */
  method HandleRequirement(claims: seq<Claim>, required: Name) returns (succeeded: bool)
    ensures succeeded <==> required in Values(claims, PERMISSION)
  {
    succeeded := false;
    if !exists c <- claims :: c.kind == PERMISSION {
      return;
    }
    for i := 0 to |claims|
      invariant succeeded <==> required in Values(claims[..i], PERMISSION)
    {
      ValuesAppend(claims[..i], claims[i], PERMISSION);
      assert claims[..i + 1] == claims[..i] + [claims[i]];
      if claims[i].kind == PERMISSION {
        if claims[i].value == required {
          succeeded := true;
        }
      }
    }
    assert claims[..|claims|] == claims;
  }

  lemma ContactValues(claims: seq<Claim>, email: Option<Text>, name: Option<Text>, kind: string)
    ensures |Contact(email, name)| == (if email.Some? then 1 else 0) + (if name.Some? then 1 else 0)
    ensures Values(claims + Contact(email, name), kind) ==
            Values(claims, kind) + (if kind == "email" && email.Some? then {email.value} else {})
                                 + (if kind == "username" && name.Some? then {name.value} else {})
  {
    var all := claims + Contact(email, name);
    assert forall c :: c in all <==> c in claims || c in Contact(email, name);
    if email.Some? {
      assert Claim("email", email.value) in Contact(email, name);
    }
    if name.Some? {
      assert Claim("username", name.value) in Contact(email, name);
    }
  }

  /** What an issued profile says under every kind but that of teams. */
  lemma ProfileValues(s: Store, user: Name, base: seq<Claim>, ids: TeamIds, email: Option<Text>, name: Option<Text>,
                      issued: seq<Claim>, kind: string)
    requires IsProfile(s, user, base, ids, Contact(email, name), issued) && kind != "team"
    ensures Values(issued, kind) ==
            Values(base, kind) + (if kind == "permission" then PermissionQuery(s, user) else {})
                               + (if kind == "dataPolicy" then PolicyQuery(s, user) else {})
                               + (if kind == "email" && email.Some? then {email.value} else {})
                               + (if kind == "username" && name.Some? then {name.value} else {})
  {
    hide PermissionQuery, PolicyQuery, TeamQuery, AddTeams, Contact;
    var a, b, rows :|
      && Adds(base, a, PERMISSION, PermissionQuery(s, user))
      && Adds(a, b, POLICY, PolicyQuery(s, user))
      && Elements(rows) == TeamQuery(s, user) && Distinct(rows)
      && issued == AddTeams(b, rows, ids) + Contact(email, name);
    if kind != PERMISSION {
      OtherKindsStay(base, a, PERMISSION, PermissionQuery(s, user), kind);
    }
    if kind != POLICY {
      OtherKindsStay(a, b, POLICY, PolicyQuery(s, user), kind);
    }
    TeamsAddOnlyTeams(b, rows, ids, kind);
    ContactValues(AddTeams(b, rows, ids), email, name, kind);
  }

  lemma {:induction false} TeamValues(claims: seq<Claim>, rows: seq<Name>, ids: TeamIds)
    requires Values(claims, TEAM) !! Elements(rows)
    requires forall t <- rows, u <- rows :: ids(t) != u
    ensures Values(AddTeams(claims, rows, ids), TEAM) == Values(claims, TEAM) + set t | t in Elements(rows) :: ids(t)
  {
    TeamsAreAllClaimed(claims, rows, ids);
    var more := Identifiers(rows, ids);
    assert forall c :: c in claims + more <==> c in claims || c in more;
    forall t | t in rows ensures Claim(TEAM, ids(t)) in more {
      var i :| 0 <= i < |rows| && rows[i] == t;
      assert more[i] == Claim(TEAM, ids(t));
    }
  }

  /** And what it says of teams: the identifiers of the user's teams and of the teams above them, if no
      identifier and no value is a team's name. */
  lemma ProfileTeams(s: Store, user: Name, base: seq<Claim>, ids: TeamIds, email: Option<Text>, name: Option<Text>,
                     issued: seq<Claim>)
    requires IsProfile(s, user, base, ids, Contact(email, name), issued)
    requires Values(base, "team") !! TeamQuery(s, user)
    requires forall t <- TeamQuery(s, user), u <- TeamQuery(s, user) :: ids(t) != u
    ensures Values(issued, "team") == Values(base, "team") + set t | t in TeamQuery(s, user) :: ids(t)
  {
    hide PermissionQuery, PolicyQuery, TeamQuery, AddTeams, Contact;
    var a, b, rows :|
      && Adds(base, a, PERMISSION, PermissionQuery(s, user))
      && Adds(a, b, POLICY, PolicyQuery(s, user))
      && Elements(rows) == TeamQuery(s, user) && Distinct(rows)
      && issued == AddTeams(b, rows, ids) + Contact(email, name);
    OtherKindsStay(base, a, PERMISSION, PermissionQuery(s, user), TEAM);
    OtherKindsStay(a, b, POLICY, PolicyQuery(s, user), TEAM);
    assert forall t <- rows :: t in Elements(rows);
    TeamValues(b, rows, ids);
    ContactValues(AddTeams(b, rows, ids), email, name, TEAM);
  }

  /** A user who logs in and then makes a request is let through exactly when a role they have, or
      any role below it, grants the required permission: on every one-level role graph, for tokens
      that carry no permission claims of their own. */
  lemma LetThroughIffGranted(s: Store, user: Name, principal: seq<Claim>, kinds: set<string>, ids: TeamIds,
                             email: Option<Text>, name: Option<Text>, issued: seq<Claim>, required: Name)
    requires OneLevel(RoleGraph(s)) && Values(Requested(principal, kinds), PERMISSION) == {}
    requires IsProfile(s, user, Requested(principal, kinds), ids, Contact(email, name), issued)
    ensures required in Values(issued, PERMISSION) <==> Grants(s, user, required)
  {
    ProfileValues(s, user, Requested(principal, kinds), ids, email, name, issued, PERMISSION);
    QueryIsClosure(s, user, required);
  }
}
