/** What the teams section of a default configuration achieves. */
module TeamsSection {
  import opened Results
  import opened Entries
  import opened Model
  import opened Graphs
  import opened Invariants
  import TeamService
  import opened SecurityContractDefaultConfiguration

  predicate ChildrenAreLeaves(s: Store, d: Entry<TeamBody>) {
    forall c <- d.body.teams :: c in s.teams && s.teams[c].children == {}
  }

  /** Users and policies exist, no list repeats a row, and the team does not declare both members and
      children. */
  predicate Ready(s: Store, d: Entry<TeamBody>) {
    && (d.body.users == [] || d.body.teams == [])
    && Elements(d.body.users) <= s.users.Keys && Elements(d.body.policies) <= s.dataPolicies.Keys
    && Distinct(d.body.users) && Distinct(d.body.teams) && Distinct(d.body.policies)
  }

  predicate References(s: Store, d: Entry<TeamBody>) {
    Ready(s, d) && ChildrenAreLeaves(s, d)
  }

  /** No declared team lists itself: the code would look it up in the middle of being changed. */
  predicate NoOwnChild(ds: seq<Entry<TeamBody>>) {
    forall d <- ds :: d.name !in d.body.teams
  }

  predicate TeamHolds(s: Store, d: Entry<TeamBody>) {
    d.name in s.teams && s.teams[d.name] == TeamRow(d) && References(s, d)
  }

  predicate NoCompoundChild(ds: seq<Entry<TeamBody>>) {
    forall d <- ds, e <- ds :: d.body.teams != [] ==> d.name !in e.body.teams
  }

  /** A team that has members is refused child teams, even if the declaration removes the members. */
  predicate NoMembersForParent(s: Store, d: Entry<TeamBody>) {
    d.body.teams != [] && d.name in s.teams ==> s.teams[d.name].members == {}
  }

  lemma TeamIff(s: Store, d: Entry<TeamBody>)
    ensures AfterTeam(s, d).Ok? <==> References(s, d) && NoMembersForParent(s, d)
    ensures AfterTeam(s, d).Ok? ==> AfterTeam(s, d) == Ok(s.(teams := s.teams[d.name := TeamRow(d)]))
  {
    assert forall c <- d.body.teams :: c in TeamGraph(s) <==> c in s.teams;
  }

  /** The error of a declared team is that of the first check that fails: child teams for a team with members,
      an unknown or compound child team, both lists declared, an unknown user, an unknown policy, a row named
      twice. */
  lemma TeamRefused(s: Store, d: Entry<TeamBody>)
    requires AfterTeam(s, d).Err?
    ensures var e := AfterTeam(s, d).error;
            if !NoMembersForParent(s, d) then e == NotProcessable(d.name)
            else if !ChildrenAreLeaves(s, d) then
              && e.item in d.body.teams && (e.item in s.teams ==> s.teams[e.item].children != {})
              && e == if e.item in s.teams then NotProcessable(e.item) else NotFound(e.item)
            else if d.body.users != [] && d.body.teams != [] then e == NotProcessable(d.name)
            else if !(Elements(d.body.users) <= s.users.Keys) then
              e.NotFound? && e.item in d.body.users && e.item !in s.users
            else if !(Elements(d.body.policies) <= s.dataPolicies.Keys) then
              e.NotFound? && e.item in d.body.policies && e.item !in s.dataPolicies
            else e == Conflict(d.name)
  {
    assert forall c <- d.body.teams :: c in TeamGraph(s) <==> c in s.teams;
  }

  lemma TeamApplied(s: Store, d: Entry<TeamBody>, t: Store)
    requires AfterTeam(s, d) == Ok(t) && d.name !in d.body.teams
    ensures TeamHolds(t, d)
  {
    TeamIff(s, d);
  }

  lemma TeamFixed(s: Store, d: Entry<TeamBody>)
    requires TeamHolds(s, d)
    ensures AfterTeam(s, d) == Ok(s)
  {
    TeamIff(s, d);
    assert s.teams[d.name := TeamRow(d)] == s.teams;
    assert d.body.users == [] ==> Elements(d.body.users) == {};
  }

  lemma TeamKept(s: Store, d: Entry<TeamBody>, e: Entry<TeamBody>, t: Store)
    requires TeamHolds(s, d) && AfterTeam(s, e) == Ok(t)
    requires d.name != e.name && (e.body.teams != [] ==> e.name !in d.body.teams)
    ensures TeamHolds(t, d)
  {
    TeamIff(s, e);
  }

  lemma TeamKeepsSound(s: Store, d: Entry<TeamBody>, t: Store)
    requires Sound(s) && AfterTeam(s, d) == Ok(t)
    ensures Sound(t)
  {
    TeamIff(s, d);
    assert d.body.users == [] ==> TeamRow(d).members == {};
    assert d.body.teams == [] ==> TeamRow(d).children == {};
    TeamService.PutTeamKeepsSound(s, d.name, TeamRow(d));
  }

  // ---- lists of teams ----

  lemma {:induction false} TeamListFrame(s: Store, ds: seq<Entry<TeamBody>>, t: Store)
    requires AfterTeamList(s, ds) == Ok(t)
    ensures t == s.(teams := t.teams) && t.teams.Keys == s.teams.Keys + Names(ds)
    decreases |ds|
  {
    if ds != [] {
      hide AfterTeam;
      TeamIff(s, ds[0]);
      TeamListFrame(AfterTeam(s, ds[0]).value, ds[1..], t);
      NamesSplit(ds);
    }
  }

  lemma {:induction false} TeamListKeepsSound(s: Store, ds: seq<Entry<TeamBody>>, t: Store)
    requires Sound(s) && AfterTeamList(s, ds) == Ok(t)
    ensures Sound(t)
    decreases |ds|
  {
    if ds != [] {
      var u := AfterTeam(s, ds[0]).value;
      TeamKeepsSound(s, ds[0], u);
      TeamListKeepsSound(u, ds[1..], t);
    }
  }

  lemma {:induction false} TeamListKept(s: Store, d: Entry<TeamBody>, ds: seq<Entry<TeamBody>>, t: Store)
    requires TeamHolds(s, d) && AfterTeamList(s, ds) == Ok(t)
    requires forall e <- ds :: d.name != e.name && (e.body.teams != [] ==> e.name !in d.body.teams)
    ensures TeamHolds(t, d)
    decreases |ds|
  {
    if ds != [] {
      var u := AfterTeam(s, ds[0]).value;
      TeamKept(s, d, ds[0], u);
      TeamListKept(u, d, ds[1..], t);
    }
  }

  lemma {:induction false} TeamListApplied(s: Store, ds: seq<Entry<TeamBody>>, t: Store)
    requires AfterTeamList(s, ds) == Ok(t) && DistinctNames(ds) && NoCompoundChild(ds)
    ensures forall d <- ds :: TeamHolds(t, d)
    decreases |ds|
  {
    if ds != [] {
      hide AfterTeam, TeamHolds;
      var u := AfterTeam(s, ds[0]).value;
      TeamApplied(s, ds[0], u);
      TeamListKept(u, ds[0], ds[1..], t);
      TeamListApplied(u, ds[1..], t);
      assert ds == [ds[0]] + ds[1..];
    }
  }

  lemma {:induction false} TeamListFixed(s: Store, ds: seq<Entry<TeamBody>>)
    requires forall d <- ds :: TeamHolds(s, d)
    ensures AfterTeamList(s, ds) == Ok(s)
    decreases |ds|
  {
    if ds != [] {
      TeamFixed(s, ds[0]);
      TeamListFixed(s, ds[1..]);
    }
  }

  // ---- the section: simple teams, then compound teams ----

  lemma {:induction false} WhereElements(compound: bool, ds: seq<Entry<TeamBody>>)
    ensures forall d :: d in TeamsWhere(compound, ds) <==> d in ds && (d.body.teams != []) == compound
    ensures DistinctNames(ds) ==> DistinctNames(TeamsWhere(compound, ds))
  {
    if ds != [] {
      WhereElements(compound, ds[1..]);
      assert ds == [ds[0]] + ds[1..];
      var rest := TeamsWhere(compound, ds[1..]);
      if DistinctNames(ds) {
        assert forall d <- rest :: d.name != ds[0].name;
      }
    }
  }

  lemma TeamsFrame(s: Store, ds: seq<Entry<TeamBody>>, t: Store)
    requires AfterTeams(s, ds) == Ok(t)
    ensures t == s.(teams := t.teams) && t.teams.Keys == s.teams.Keys + Names(ds)
    ensures Sound(s) ==> Sound(t)
  {
    WhereElements(false, ds);
    WhereElements(true, ds);
    var u := AfterTeamList(s, TeamsWhere(false, ds)).value;
    TeamListFrame(s, TeamsWhere(false, ds), u);
    TeamListFrame(u, TeamsWhere(true, ds), t);
    if Sound(s) {
      TeamListKeepsSound(s, TeamsWhere(false, ds), u);
      TeamListKeepsSound(u, TeamsWhere(true, ds), t);
    }
  }

  lemma TeamsApplied(s: Store, ds: seq<Entry<TeamBody>>, t: Store)
    requires AfterTeams(s, ds) == Ok(t) && DistinctNames(ds) && NoCompoundChild(ds)
    ensures forall d <- ds :: TeamHolds(t, d)
  {
    var simple, compound := TeamsWhere(false, ds), TeamsWhere(true, ds);
    WhereElements(false, ds);
    WhereElements(true, ds);
    var u := AfterTeamList(s, simple).value;
    TeamListApplied(s, simple, u);
    TeamListApplied(u, compound, t);
    SameNameSameEntry(ds);
    forall d <- ds ensures TeamHolds(t, d) {
      if d in simple {
        TeamListKept(u, d, compound, t);
      }
    }
  }

  lemma TeamsFixed(s: Store, ds: seq<Entry<TeamBody>>)
    requires forall d <- ds :: TeamHolds(s, d)
    ensures AfterTeams(s, ds) == Ok(s)
  {
    WhereElements(false, ds);
    WhereElements(true, ds);
    TeamListFixed(s, TeamsWhere(false, ds));
    TeamListFixed(s, TeamsWhere(true, ds));
  }

  // ---- a compound team listed as a child ----

  lemma {:induction false} TeamListRows(s: Store, ds: seq<Entry<TeamBody>>, t: Store)
    requires AfterTeamList(s, ds) == Ok(t) && DistinctNames(ds)
    ensures forall d <- ds :: d.name in t.teams && t.teams[d.name] == TeamRow(d)
    ensures forall r <- s.teams :: r !in Names(ds) ==> r in t.teams && t.teams[r] == s.teams[r]
    decreases |ds|
  {
    if ds != [] {
      TeamIff(s, ds[0]);
      assert ds == [ds[0]] + ds[1..];
      NamesSplit(ds);
      DistinctSplit(ds);
      TeamListRows(AfterTeam(s, ds[0]).value, ds[1..], t);
    }
  }

  /** A team that has children, and is declared with children if at all, is refused as a child. */
  lemma {:induction false} TeamListRefused(s: Store, ds: seq<Entry<TeamBody>>, e: Entry<TeamBody>, c: Name)
    requires e in ds && c in e.body.teams
    requires c in s.teams && s.teams[c].children != {}
    requires forall d <- ds :: d.name == c ==> d.body.teams != []
    ensures AfterTeamList(s, ds).Err?
    decreases |ds|
  {
    TeamIff(s, ds[0]);
    assert ds == [ds[0]] + ds[1..];
    if AfterTeam(s, ds[0]).Ok? && e != ds[0] {
      assert ds[0].body.teams != [] ==> ds[0].body.teams[0] in TeamRow(ds[0]).children;
      TeamListRefused(AfterTeam(s, ds[0]).value, ds[1..], e, c);
    }
  }

  lemma TeamsRefused(s: Store, ds: seq<Entry<TeamBody>>, d: Entry<TeamBody>, e: Entry<TeamBody>)
    requires DistinctNames(ds) && d in ds && e in ds && d.body.teams != [] && d.name in e.body.teams
    requires d.name in s.teams && s.teams[d.name].children != {}
    ensures AfterTeams(s, ds).Err?
  {
    var simple, compound := TeamsWhere(false, ds), TeamsWhere(true, ds);
    WhereElements(false, ds);
    WhereElements(true, ds);
    SameNameSameEntry(ds);
    if AfterTeamList(s, simple).Ok? {
      var u := AfterTeamList(s, simple).value;
      TeamListRows(s, simple, u);
      assert d.name !in Names(simple);
      TeamListRefused(u, compound, e, d.name);
    }
  }

  /** Applying the section again, to a store with the same teams, users and policies, succeeds and
      changes nothing exactly when no compound team is listed as a child. */
  lemma TeamsAgainIff(s: Store, ds: seq<Entry<TeamBody>>, t: Store, v: Store)
    requires AfterTeams(s, ds) == Ok(t) && DistinctNames(ds) && NoOwnChild(ds)
    requires v.teams == t.teams && v.users == t.users && v.dataPolicies == t.dataPolicies
    ensures NoCompoundChild(ds) ==> AfterTeams(v, ds) == Ok(v)
    ensures !NoCompoundChild(ds) ==> AfterTeams(v, ds).Err?
  {
    hide AfterTeamList;
    if NoCompoundChild(ds) {
      TeamsApplied(s, ds, t);
      forall d <- ds ensures TeamHolds(v, d) {
        assert TeamHolds(t, d);
      }
      TeamsFixed(v, ds);
    } else {
      var d, e :| d in ds && e in ds && d.body.teams != [] && d.name in e.body.teams;
      WhereElements(false, ds);
      WhereElements(true, ds);
      TeamListRows(AfterTeamList(s, TeamsWhere(false, ds)).value, TeamsWhere(true, ds), t);
      assert d.body.teams[0] in TeamRow(d).children;
      TeamsRefused(v, ds, d, e);
    }
  }

  // ---- the section on a store without teams ----

  lemma {:induction false} SimpleSucceedIff(s: Store, ds: seq<Entry<TeamBody>>)
    requires forall d <- ds :: d.body.teams == []
    requires forall t <- s.teams :: s.teams[t].children == {}
    ensures AfterTeamList(s, ds).Ok? <==> forall d <- ds :: Ready(s, d)
    ensures AfterTeamList(s, ds).Ok? ==> forall t <- AfterTeamList(s, ds).value.teams ::
            AfterTeamList(s, ds).value.teams[t].children == {}
    decreases |ds|
  {
    if ds != [] {
      hide AfterTeam;
      TeamIff(s, ds[0]);
      assert ChildrenAreLeaves(s, ds[0]);
      assert AfterTeam(s, ds[0]).Ok? <==> Ready(s, ds[0]);
      assert forall d :: d in ds <==> d == ds[0] || d in ds[1..];
      if AfterTeam(s, ds[0]).Ok? {
        var u := AfterTeam(s, ds[0]).value;
        assert forall d <- ds[1..] :: Ready(u, d) <==> Ready(s, d);
        SimpleSucceedIff(u, ds[1..]);
      }
    }
  }

  lemma {:induction false} CompoundSucceedIff(s: Store, ds: seq<Entry<TeamBody>>, leaves: set<Name>)
    requires DistinctNames(ds) && forall d <- ds :: d.body.teams != [] && d.name !in s.teams
    requires leaves <= s.teams.Keys && forall t <- s.teams :: s.teams[t].children == {} <==> t in leaves
    ensures AfterTeamList(s, ds).Ok? <==> forall d <- ds :: Ready(s, d) && Elements(d.body.teams) <= leaves
    decreases |ds|
  {
    if ds != [] {
      var d := ds[0];
      TeamIff(s, d);
      assert ChildrenAreLeaves(s, d) <==> Elements(d.body.teams) <= leaves;
      assert ds == [d] + ds[1..];
      DistinctSplit(ds);
      if AfterTeam(s, d).Ok? {
        var u := AfterTeam(s, d).value;
        assert d.body.teams[0] in TeamRow(d).children;
        assert forall e <- ds[1..] :: Ready(u, e) <==> Ready(s, e);
        CompoundSucceedIff(u, ds[1..], leaves);
      }
    }
  }

  /** Every child name is the name of a declared team without children. */
  predicate ChildrenAreDeclaredSimple(ds: seq<Entry<TeamBody>>) {
    forall d <- ds, c <- d.body.teams :: exists e <- ds :: e.name == c && e.body.teams == []
  }

  lemma SectionSucceedsIff(s: Store, ds: seq<Entry<TeamBody>>)
    requires s.teams == map[] && DistinctNames(ds)
    ensures AfterTeams(s, ds).Ok? <==> ChildrenAreDeclaredSimple(ds) && forall d <- ds :: Ready(s, d)
  {
    hide AfterTeam, AfterTeamList, TeamsWhere;
    var simple, compound := TeamsWhere(false, ds), TeamsWhere(true, ds);
    WhereElements(false, ds);
    WhereElements(true, ds);
    SimpleSucceedIff(s, simple);
    if AfterTeamList(s, simple).Ok? {
      var u := AfterTeamList(s, simple).value;
      TeamListFrame(s, simple, u);
      SameNameSameEntry(ds);
      var leaves := Names(simple);
      assert u.teams.Keys == leaves;
      CompoundSucceedIff(u, compound, leaves);
      assert forall d <- ds :: Ready(u, d) <==> Ready(s, d);
      forall d <- ds
        ensures (forall c <- d.body.teams :: exists e <- ds :: e.name == c && e.body.teams == []) <==>
                Elements(d.body.teams) <= leaves
      {
        forall c <- d.body.teams ensures c in leaves <==> exists e <- ds :: e.name == c && e.body.teams == [] {
        }
      }
    }
  }

  /** On a store without teams the section succeeds exactly when every child is a declared simple
      team, no team declares both users and children, the rows referred to exist and none is repeated;
      the stored teams are then the declared ones and the graph has one level. */
  lemma SectionOnEmpty(s: Store, ds: seq<Entry<TeamBody>>)
    requires s.teams == map[] && DistinctNames(ds)
    ensures AfterTeams(s, ds).Ok? <==> ChildrenAreDeclaredSimple(ds) && forall d <- ds :: Ready(s, d)
    ensures AfterTeams(s, ds).Ok? ==>
              var t := AfterTeams(s, ds).value;
              && t == s.(teams := t.teams)
              && t.teams.Keys == Names(ds)
              && (forall d <- ds :: t.teams[d.name] == TeamRow(d))
              && OneLevel(TeamGraph(t))
  {
    SectionSucceedsIff(s, ds);
    if AfterTeams(s, ds).Ok? {
      SameNameSameEntry(ds);
      assert NoCompoundChild(ds);
      var t := AfterTeams(s, ds).value;
      TeamsFrame(s, ds, t);
      TeamsApplied(s, ds, t);
      forall a <- TeamGraph(t), b <- TeamGraph(t)[a] ensures TeamGraph(t)[b] == {} {
        var d :| d in ds && d.name == a;
        assert TeamHolds(t, d);
      }
    }
  }

  /** The order in which the teams are listed decides neither success nor result. */
  lemma OrderIsImmaterial(s: Store, ds: seq<Entry<TeamBody>>, es: seq<Entry<TeamBody>>)
    requires s.teams == map[] && DistinctNames(ds) && DistinctNames(es) && Elements(ds) == Elements(es)
    ensures AfterTeams(s, ds).Ok? <==> AfterTeams(s, es).Ok?
    ensures AfterTeams(s, ds).Ok? ==> AfterTeams(s, ds) == AfterTeams(s, es)
  {
    hide AfterTeams, Ready;
    assert forall d :: d in ds <==> d in Elements(es);
    SectionOnEmpty(s, ds);
    SectionOnEmpty(s, es);
    if AfterTeams(s, ds).Ok? && AfterTeams(s, es).Ok? {
      assert AfterTeams(s, ds).value.teams == AfterTeams(s, es).value.teams;
    }
  }
}
