/** What every reachable store satisfies. */
module Invariants {
  import opened Entries
  import opened Model
  import opened Graphs

  function RoleGraph(s: Store): Graph {
    map r | r in s.roles :: s.roles[r].children
  }

  function TeamGraph(s: Store): Graph {
    map t | t in s.teams :: s.teams[t].children
  }

  predicate Flat(s: Store) {
    OneLevel(RoleGraph(s)) && OneLevel(TeamGraph(s))
  }

  /** No cycle goes through two roles or two teams. */
  ghost predicate Acyclic(s: Store) {
    NoLongCycle(RoleGraph(s)) && NoLongCycle(TeamGraph(s))
  }

  /** Child roles and child teams are stored. */
  predicate Linked(s: Store) {
    Closed(RoleGraph(s)) && Closed(TeamGraph(s))
  }

  /** The permissions some application function holds. */
  function Held(appFunctions: map<Name, AppFunction>): set<Name> {
    set f, p | f in appFunctions && p in appFunctions[f].permissions :: p
  }

  /** The permissions the application functions of one application hold. */
  function HeldBy(appFunctions: map<Name, AppFunction>, application: Name): set<Name> {
    set f, p | f in appFunctions && appFunctions[f].application == application && p in appFunctions[f].permissions :: p
  }

  /** Two application functions of one application hold the permission. */
  predicate HeldTwice(appFunctions: map<Name, AppFunction>, application: Name, p: Name) {
    exists f <- appFunctions, g <- appFunctions ::
      && f != g && appFunctions[f].application == application == appFunctions[g].application
      && p in appFunctions[f].permissions && p in appFunctions[g].permissions
  }

  /** `First()` on the application functions of a stored permission never meets an empty list. */
  predicate PermissionsHeld(s: Store) {
    s.permissions.Keys <= Held(s.appFunctions)
  }

  /** Every permission of a business function belongs to the function's application. */
  predicate FunctionsCovered(s: Store) {
    forall f <- s.functions ::
      s.functions[f].application.Some? ==>
        s.functions[f].permissions <= HeldBy(s.appFunctions, s.functions[f].application.value)
  }

  /** No permission is held by the application functions of two applications. */
  predicate Unshared(s: Store) {
    forall f <- s.appFunctions, g <- s.appFunctions ::
      s.appFunctions[f].application != s.appFunctions[g].application ==>
        s.appFunctions[f].permissions !! s.appFunctions[g].permissions
  }

  predicate TeamsDisjoint(s: Store) {
    forall t <- s.teams :: s.teams[t].members == {} || s.teams[t].children == {}
  }

  ghost predicate Sound(s: Store) {
    && WellFormed(s)
    && PermissionsHeld(s)
    && TeamsDisjoint(s)
    && Acyclic(s)
  }

  lemma SoundIsWellFormed(s: Store)
    requires Sound(s)
    ensures WellFormed(s) && PermissionsHeld(s) && TeamsDisjoint(s)
  {
  }

  lemma EmptyIsSound()
    ensures Sound(EMPTY) && FunctionsCovered(EMPTY)
  {
    forall g: Graph, p: seq<Name>, i | g == map[] && Cycle(g, p) && 0 <= i < |p| ensures p[i] == p[0] {
      assert |p| > 1 ==> Edge(g, p[0], p[1]);
    }
  }
}
