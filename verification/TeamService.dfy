/** Creating and updating teams. */
module TeamService {
  import opened Results
  import opened Entries
  import opened Model
  import opened Graphs
  import opened Invariants
  import opened Assignments

  /** `None` is a null list, which leaves the stored rows alone; an empty list clears them. */
  datatype TeamSubmit = TeamSubmit(name: Name, description: Text, teams: Option<seq<Name>>, policies: Option<seq<Name>>)

  const NO_TEAM := Team("", {}, {}, {})

  function RowsOr(names: Option<seq<Name>>, kept: set<Name>): set<Name> {
    if names.Some? then Elements(names.value) else kept
  }

  function CheckChildTeams(s: Store, name: Name, members: set<Name>, children: seq<Name>): Outcome {
    if children != [] && members != {} then Fail(NotProcessable(name))
    else CheckLeaves(TeamGraph(s), children)
  }

  function AfterWrite(s: Store, submit: TeamSubmit): Result<Store> {
    var team := if submit.name in s.teams then s.teams[submit.name] else NO_TEAM;
    var children, policies := RowsOr(submit.teams, team.children), RowsOr(submit.policies, team.policies);
    CheckChildTeams(s, submit.name, team.members, OptionalNames(submit.teams)).Then(
      CheckPresent(s.dataPolicies.Keys, OptionalNames(submit.policies)).Then(
        CheckKeys(submit.name, OptionalNames(submit.teams)).Then(
          CheckKeys(submit.name, OptionalNames(submit.policies)).Then(
            Ok(s.(teams := s.teams[submit.name := Team(submit.description, team.members, children, policies)]))))))
  }

  function AfterCreate(s: Store, submit: TeamSubmit): Result<Store> {
    if submit.name in s.teams then Err(NotProcessable(submit.name)) else AfterWrite(s, submit)
  }

  function AfterRename(s: Store, from: Name, to: Name): Store
    requires from in s.teams
  {
    if from == to then s else
      s.(teams := map t | t in s.teams.Keys - {from} + {to} ::
                    var team := s.teams[Renamed(t, to, from)]; team.(children := RenameIn(team.children, from, to)))
  }

  function AfterUpdate(s: Store, target: Name, submit: TeamSubmit): Result<Store> {
    if target !in s.teams then Err(NotFound(target))
    else if target != submit.name && submit.name in s.teams then Err(NotProcessable(submit.name))
    else AfterWrite(AfterRename(s, target, submit.name), submit)
  }

  /** Rebuilds the association rows of a team that is not saved yet. */
  method AssignRows(tracked: Store, submit: TeamSubmit) returns (r: Outcome, team: Team)
    ensures Realises(r, tracked.(teams := tracked.teams[submit.name := team]), AfterWrite(tracked, submit))
  {
    r := Pass;
    team := if submit.name in tracked.teams then tracked.teams[submit.name] else NO_TEAM;
    var childRows, policyRows: seq<Name> := [], [];
    if submit.teams.Some? {
      if submit.teams.value != [] {
        if team.members != {} {
          return Fail(NotProcessable(submit.name)), team;
        }
        r, childRows := AssignLeaves(TeamGraph(tracked), submit.teams.value);
      }
      team := team.(children := Elements(childRows));
    }
    if r.Pass? && submit.policies.Some? {
      r, policyRows := AssignPresent(tracked.dataPolicies.Keys, submit.policies.value);
      team := team.(policies := Elements(policyRows));
    }
    if r.Pass? && (!Distinct(childRows) || !Distinct(policyRows)) {
      r := Fail(Conflict(submit.name));
    }
    team := team.(description := submit.description);
  }

  method Create(db: A3SContext, submit: TeamSubmit) returns (r: Outcome)
    modifies db`teams
    ensures Realises(r, db.State(), AfterCreate(old(db.State()), submit))
    ensures r.Fail? ==> db.State() == old(db.State())
  {
    if submit.name in db.teams {
      return Fail(NotProcessable(submit.name));
    }
    var team: Team;
    r, team := AssignRows(db.State(), submit);
    if r.Pass? {
      db.teams := db.teams[submit.name := team];
    }
  }

  method Update(db: A3SContext, target: Name, submit: TeamSubmit) returns (r: Outcome)
    modifies db`teams
    ensures Realises(r, db.State(), AfterUpdate(old(db.State()), target, submit))
    ensures r.Fail? ==> db.State() == old(db.State())
  {
    if target !in db.teams {
      return Fail(NotFound(target));
    }
    if target != submit.name && submit.name in db.teams {
      return Fail(NotProcessable(submit.name));
    }
    var tracked := AfterRename(db.State(), target, submit.name);
    var team: Team;
    r, team := AssignRows(tracked, submit);
    if r.Pass? {
      db.teams := tracked.teams[submit.name := team];
    }
  }

  lemma PutTeamKeepsRows(s: Store, name: Name, team: Team)
    requires WellFormed(s) && PermissionsHeld(s) && TeamsDisjoint(s)
    requires team.members <= s.users.Keys && team.policies <= s.dataPolicies.Keys && team.children <= s.teams.Keys
    requires team.members == {} || team.children == {}
    ensures var t := s.(teams := s.teams[name := team]); WellFormed(t) && PermissionsHeld(t) && TeamsDisjoint(t)
  {
  }

  /** Overwriting one team keeps the store sound if its new children are leaves or its old ones,
      its rows refer to stored rows, and it does not have both members and children. */
  lemma PutTeamKeepsSound(s: Store, name: Name, team: Team)
    requires Sound(s)
    requires team.members <= s.users.Keys && team.policies <= s.dataPolicies.Keys && team.children <= s.teams.Keys
    requires team.members == {} || team.children == {}
    requires Assignable(TeamGraph(s), name, team.children)
             || (name in s.teams && team.children == s.teams[name].children)
    ensures Sound(s.(teams := s.teams[name := team]))
  {
    hide NoLongCycle, WellFormed, PermissionsHeld, TeamsDisjoint;
    var t := s.(teams := s.teams[name := team]);
    PutTeamKeepsRows(s, name, team);
    assert RoleGraph(t) == RoleGraph(s);
    assert TeamGraph(t) == TeamGraph(s)[name := team.children];
    if Assignable(TeamGraph(s), name, team.children) {
      AssignmentClosesNoCycle(TeamGraph(s), name, team.children);
    } else {
      assert TeamGraph(t) == TeamGraph(s);
    }
  }

  lemma WriteKeepsSound(s: Store, submit: TeamSubmit)
    requires Sound(s) && AfterWrite(s, submit).Ok?
    ensures Sound(AfterWrite(s, submit).value)
  {
    PutTeamKeepsSound(s, submit.name, AfterWrite(s, submit).value.teams[submit.name]);
  }

  lemma RenameKeepsRows(s: Store, from: Name, to: Name)
    requires WellFormed(s) && PermissionsHeld(s) && TeamsDisjoint(s) && from in s.teams && from != to && to !in s.teams
    ensures var t := AfterRename(s, from, to); WellFormed(t) && PermissionsHeld(t) && TeamsDisjoint(t)
  {
  }

  lemma RenameInGraph(s: Store, from: Name, to: Name)
    requires from in s.teams && from != to && to !in s.teams
    ensures TeamGraph(AfterRename(s, from, to)) == RenameNode(TeamGraph(s), from, to)
    ensures RoleGraph(AfterRename(s, from, to)) == RoleGraph(s)
  {
  }

  lemma RenameKeepsSound(s: Store, from: Name, to: Name)
    requires Sound(s) && from in s.teams && (from == to || to !in s.teams)
    ensures Sound(AfterRename(s, from, to))
  {
    if from != to {
      hide AfterRename, NoLongCycle;
      RenameKeepsRows(s, from, to);
      RenameInGraph(s, from, to);
      RenameKeepsNoLongCycle(TeamGraph(s), from, to);
    }
  }

  lemma RenamedRows(s: Store, from: Name, to: Name)
    requires from in s.teams && (from == to || to !in s.teams)
    ensures var t := AfterRename(s, from, to);
            && t == s.(teams := t.teams) && t.teams.Keys == s.teams.Keys - {from} + {to}
            && forall x <- t.teams ::
                 var row := s.teams[Renamed(x, to, from)];
                 t.teams[x] == row.(children := RenameIn(row.children, from, to))
                     && (t.teams[x].children == {} <==> row.children == {})
  {
    forall xs ensures (from == to ==> RenameIn(xs, from, to) == xs) && (RenameIn(xs, from, to) == {} <==> xs == {}) {
      RenameToItself(xs, from);
      RenameInNothing(xs, from, to);
    }
  }

  // ---- what is accepted, and what is stored ----

  /** A team with members lists no child teams, the listed child teams exist and have no child teams, the
      listed policies exist, and no list repeats a row; the error is that of the first check that fails. */
  lemma WriteIff(s: Store, submit: TeamSubmit)
    ensures var r, team := AfterWrite(s, submit), if submit.name in s.teams then s.teams[submit.name] else NO_TEAM;
            var cs, ps := OptionalNames(submit.teams), OptionalNames(submit.policies);
            if cs != [] && team.members != {} then r == Err(NotProcessable(submit.name))
            else if c :| c in cs && (c !in s.teams || s.teams[c].children != {}) then
              && r.Err? && r.error.item in cs
              && r.error == (if r.error.item in s.teams then NotProcessable(r.error.item) else NotFound(r.error.item))
              && (r.error.item in s.teams ==> s.teams[r.error.item].children != {})
            else if p :| p in ps && p !in s.dataPolicies then
              r.Err? && r.error.NotFound? && r.error.item in ps && r.error.item !in s.dataPolicies
            else if !Distinct(cs) || !Distinct(ps) then r == Err(Conflict(submit.name))
            else
              r == Ok(s.(teams := s.teams[submit.name := Team(submit.description, team.members,
                     if submit.teams.Some? then Elements(submit.teams.value) else team.children,
                     if submit.policies.Some? then Elements(submit.policies.value) else team.policies)]))
  {
    assert forall c :: c in TeamGraph(s) <==> c in s.teams;
  }

  lemma WriteAcceptedIff(s: Store, submit: TeamSubmit)
    ensures AfterWrite(s, submit).Ok? <==>
              && (OptionalNames(submit.teams) == [] || submit.name !in s.teams || s.teams[submit.name].members == {})
              && (forall c <- OptionalNames(submit.teams) :: c in s.teams && s.teams[c].children == {})
              && Elements(OptionalNames(submit.policies)) <= s.dataPolicies.Keys
              && Distinct(OptionalNames(submit.teams)) && Distinct(OptionalNames(submit.policies))
  {
    hide AfterWrite, Distinct;
    WriteIff(s, submit);
  }

  /** When a team is accepted, and what is stored then: nothing but the team, which has no members. */
  lemma CreateIff(s: Store, submit: TeamSubmit)
    ensures AfterCreate(s, submit).Ok? <==>
              && submit.name !in s.teams
              && (forall c <- OptionalNames(submit.teams) :: c in s.teams && s.teams[c].children == {})
              && Elements(OptionalNames(submit.policies)) <= s.dataPolicies.Keys
              && Distinct(OptionalNames(submit.teams)) && Distinct(OptionalNames(submit.policies))
    ensures submit.name in s.teams ==> AfterCreate(s, submit) == Err(NotProcessable(submit.name))
    ensures AfterCreate(s, submit).Ok? ==>
              var t := AfterCreate(s, submit).value;
              && t == s.(teams := t.teams) && t.teams.Keys == s.teams.Keys + {submit.name}
              && t.teams[submit.name] == Team(submit.description, {}, Elements(OptionalNames(submit.teams)),
                                              Elements(OptionalNames(submit.policies)))
              && forall x <- s.teams :: t.teams[x] == s.teams[x]
  {
    hide AfterWrite, Distinct;
    WriteIff(s, submit);
    assert Elements<Name>([]) == {};
  }

  /** When an update is accepted: like a creation, but only for a team without members if child teams are
      listed, and a team without child teams may list itself under its new name. */
  lemma UpdateIff(s: Store, target: Name, submit: TeamSubmit)
    ensures AfterUpdate(s, target, submit).Ok? <==>
              && target in s.teams && (submit.name == target || submit.name !in s.teams)
              && (OptionalNames(submit.teams) == [] || s.teams[target].members == {})
              && (forall c <- OptionalNames(submit.teams) ::
                    if c == submit.name then s.teams[target].children == {}
                    else c in s.teams && c != target && s.teams[c].children == {})
              && Elements(OptionalNames(submit.policies)) <= s.dataPolicies.Keys
              && Distinct(OptionalNames(submit.teams)) && Distinct(OptionalNames(submit.policies))
    ensures target !in s.teams ==> AfterUpdate(s, target, submit) == Err(NotFound(target))
    ensures target in s.teams && submit.name != target && submit.name in s.teams ==>
              AfterUpdate(s, target, submit) == Err(NotProcessable(submit.name))
  {
    if target in s.teams && (submit.name == target || submit.name !in s.teams) {
      hide AfterRename, AfterWrite, RenameIn, Distinct;
      var b := AfterRename(s, target, submit.name);
      RenamedRows(s, target, submit.name);
      assert forall c :: c in b.teams && b.teams[c].children == {} <==>
          if c == submit.name then s.teams[target].children == {}
          else c in s.teams && c != target && s.teams[c].children == {};
      WriteAcceptedIff(b, submit);
    }
  }

  /** What an update stores: members stay, submitted lists replace the stored rows, lists that are not
      submitted stay, and other teams follow the new name. */
  lemma UpdateStores(s: Store, target: Name, submit: TeamSubmit, t: Store)
    requires AfterUpdate(s, target, submit) == Ok(t)
    ensures t == s.(teams := t.teams) && t.teams.Keys == s.teams.Keys - {target} + {submit.name}
    ensures var team := s.teams[target];
            t.teams[submit.name] == Team(submit.description, team.members,
              if submit.teams.Some? then Elements(submit.teams.value)
              else RenameIn(team.children, target, submit.name),
              if submit.policies.Some? then Elements(submit.policies.value) else team.policies)
    ensures forall x <- t.teams :: x != submit.name ==>
              t.teams[x] == s.teams[x].(children := RenameIn(s.teams[x].children, target, submit.name))
  {
    hide AfterRename, AfterWrite, RenameIn;
    RenamedRows(s, target, submit.name);
    WriteIff(AfterRename(s, target, submit.name), submit);
  }
}
