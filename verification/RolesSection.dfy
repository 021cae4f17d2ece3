/** What the roles section of a default configuration achieves. */
module RolesSection {
  import opened Results
  import opened Entries
  import opened Model
  import opened Graphs
  import opened Invariants
  import opened SecurityContractDefaultConfiguration

  function RoleRow(d: Entry<RoleBody>): Role {
    Role(d.body.description, Elements(d.body.functions), Elements(d.body.roles))
  }

  predicate ChildrenAreLeaves(s: Store, d: Entry<RoleBody>) {
    forall c <- d.body.roles :: c in s.roles && s.roles[c].children == {}
  }

  /** The functions exist, and no list repeats a row. */
  predicate Ready(s: Store, d: Entry<RoleBody>) {
    Elements(d.body.functions) <= s.functions.Keys && Distinct(d.body.functions) && Distinct(d.body.roles)
  }

  /** The store already is what the declaration asks for. */
  predicate RoleHolds(s: Store, d: Entry<RoleBody>) {
    d.name in s.roles && s.roles[d.name] == RoleRow(d) && Ready(s, d) && ChildrenAreLeaves(s, d)
  }

  /** No declared role lists itself: the code would look it up in the middle of being changed. */
  predicate NoOwnChild(ds: seq<Entry<RoleBody>>) {
    forall d <- ds :: d.name !in d.body.roles
  }

  /** No declared role with children is declared as a child. */
  predicate NoCompoundChild(ds: seq<Entry<RoleBody>>) {
    forall d <- ds, e <- ds :: d.body.roles != [] ==> d.name !in e.body.roles
  }

  lemma RoleIff(s: Store, d: Entry<RoleBody>)
    ensures AfterRole(s, d).Ok? <==> Ready(s, d) && ChildrenAreLeaves(s, d)
    ensures AfterRole(s, d).Ok? ==> AfterRole(s, d) == Ok(s.(roles := s.roles[d.name := RoleRow(d)]))
  {
    assert forall c <- d.body.roles :: c in RoleGraph(s) <==> c in s.roles;
  }

  lemma RoleApplied(s: Store, d: Entry<RoleBody>, t: Store)
    requires AfterRole(s, d) == Ok(t) && d.name !in d.body.roles
    ensures RoleHolds(t, d)
  {
    RoleIff(s, d);
  }

  lemma RoleFixed(s: Store, d: Entry<RoleBody>)
    requires RoleHolds(s, d)
    ensures AfterRole(s, d) == Ok(s)
  {
    RoleIff(s, d);
    assert s.roles[d.name := RoleRow(d)] == s.roles;
  }

  lemma RoleKept(s: Store, d: Entry<RoleBody>, e: Entry<RoleBody>, t: Store)
    requires RoleHolds(s, d) && AfterRole(s, e) == Ok(t)
    requires d.name != e.name && (e.body.roles != [] ==> e.name !in d.body.roles)
    ensures RoleHolds(t, d)
  {
    RoleIff(s, e);
  }

  // ---- lists of roles ----

  lemma {:induction false} RoleListFrame(s: Store, ds: seq<Entry<RoleBody>>, t: Store)
    requires AfterRoleList(s, ds) == Ok(t)
    ensures t == s.(roles := t.roles) && t.roles.Keys == s.roles.Keys + Names(ds)
    decreases |ds|
  {
    if ds != [] {
      hide AfterRole;
      RoleIff(s, ds[0]);
      RoleListFrame(AfterRole(s, ds[0]).value, ds[1..], t);
      NamesSplit(ds);
    }
  }

  lemma {:induction false} RoleListKept(s: Store, d: Entry<RoleBody>, ds: seq<Entry<RoleBody>>, t: Store)
    requires RoleHolds(s, d) && AfterRoleList(s, ds) == Ok(t)
    requires forall e <- ds :: d.name != e.name && (e.body.roles != [] ==> e.name !in d.body.roles)
    ensures RoleHolds(t, d)
    decreases |ds|
  {
    if ds != [] {
      var u := AfterRole(s, ds[0]).value;
      RoleKept(s, d, ds[0], u);
      RoleListKept(u, d, ds[1..], t);
    }
  }

  lemma {:induction false} RoleListApplied(s: Store, ds: seq<Entry<RoleBody>>, t: Store)
    requires AfterRoleList(s, ds) == Ok(t) && DistinctNames(ds) && NoCompoundChild(ds)
    ensures forall d <- ds :: RoleHolds(t, d)
    decreases |ds|
  {
    if ds != [] {
      var u := AfterRole(s, ds[0]).value;
      RoleApplied(s, ds[0], u);
      RoleListKept(u, ds[0], ds[1..], t);
      RoleListApplied(u, ds[1..], t);
      assert ds == [ds[0]] + ds[1..];
    }
  }

  lemma {:induction false} RoleListFixed(s: Store, ds: seq<Entry<RoleBody>>)
    requires forall d <- ds :: RoleHolds(s, d)
    ensures AfterRoleList(s, ds) == Ok(s)
    decreases |ds|
  {
    if ds != [] {
      RoleFixed(s, ds[0]);
      RoleListFixed(s, ds[1..]);
    }
  }

  // ---- the section: simple roles, then compound roles ----

  lemma {:induction false} WhereElements(compound: bool, ds: seq<Entry<RoleBody>>)
    ensures forall d :: d in RolesWhere(compound, ds) <==> d in ds && (d.body.roles != []) == compound
    ensures DistinctNames(ds) ==> DistinctNames(RolesWhere(compound, ds))
  {
    if ds != [] {
      WhereElements(compound, ds[1..]);
      assert ds == [ds[0]] + ds[1..];
      var rest := RolesWhere(compound, ds[1..]);
      if DistinctNames(ds) {
        assert forall d <- rest :: d.name != ds[0].name;
      }
    }
  }

  lemma RolesApplied(s: Store, ds: seq<Entry<RoleBody>>, t: Store)
    requires AfterRoles(s, ds) == Ok(t) && DistinctNames(ds) && NoCompoundChild(ds)
    ensures forall d <- ds :: RoleHolds(t, d)
    ensures t == s.(roles := t.roles) && t.roles.Keys == s.roles.Keys + Names(ds)
  {
    var simple, compound := RolesWhere(false, ds), RolesWhere(true, ds);
    WhereElements(false, ds);
    WhereElements(true, ds);
    var u := AfterRoleList(s, simple).value;
    RoleListApplied(s, simple, u);
    RoleListApplied(u, compound, t);
    RoleListFrame(s, simple, u);
    RoleListFrame(u, compound, t);
    forall d <- ds ensures RoleHolds(t, d) {
      if d in simple {
        RoleListKept(u, d, compound, t);
      }
    }
  }

  lemma RolesFixed(s: Store, ds: seq<Entry<RoleBody>>)
    requires forall d <- ds :: RoleHolds(s, d)
    ensures AfterRoles(s, ds) == Ok(s)
  {
    WhereElements(false, ds);
    WhereElements(true, ds);
    RoleListFixed(s, RolesWhere(false, ds));
    RoleListFixed(s, RolesWhere(true, ds));
  }

  // ---- a compound role listed as a child ----

  lemma {:induction false} RoleListRows(s: Store, ds: seq<Entry<RoleBody>>, t: Store)
    requires AfterRoleList(s, ds) == Ok(t) && DistinctNames(ds)
    ensures forall d <- ds :: d.name in t.roles && t.roles[d.name] == RoleRow(d)
    ensures forall r <- s.roles :: r !in Names(ds) ==> r in t.roles && t.roles[r] == s.roles[r]
    decreases |ds|
  {
    if ds != [] {
      RoleIff(s, ds[0]);
      assert ds == [ds[0]] + ds[1..];
      NamesSplit(ds);
      DistinctSplit(ds);
      RoleListRows(AfterRole(s, ds[0]).value, ds[1..], t);
    }
  }

  /** A role that has children, and is declared with children if at all, is refused as a child. */
  lemma {:induction false} RoleListRefused(s: Store, ds: seq<Entry<RoleBody>>, e: Entry<RoleBody>, c: Name)
    requires e in ds && c in e.body.roles
    requires c in s.roles && s.roles[c].children != {}
    requires forall d <- ds :: d.name == c ==> d.body.roles != []
    ensures AfterRoleList(s, ds).Err?
    decreases |ds|
  {
    RoleIff(s, ds[0]);
    assert ds == [ds[0]] + ds[1..];
    if AfterRole(s, ds[0]).Ok? && e != ds[0] {
      assert ds[0].body.roles != [] ==> ds[0].body.roles[0] in RoleRow(ds[0]).children;
      RoleListRefused(AfterRole(s, ds[0]).value, ds[1..], e, c);
    }
  }

  lemma RolesRefused(s: Store, ds: seq<Entry<RoleBody>>, d: Entry<RoleBody>, e: Entry<RoleBody>)
    requires DistinctNames(ds) && d in ds && e in ds && d.body.roles != [] && d.name in e.body.roles
    requires d.name in s.roles && s.roles[d.name].children != {}
    ensures AfterRoles(s, ds).Err?
  {
    var simple, compound := RolesWhere(false, ds), RolesWhere(true, ds);
    WhereElements(false, ds);
    WhereElements(true, ds);
    SameNameSameEntry(ds);
    if AfterRoleList(s, simple).Ok? {
      var u := AfterRoleList(s, simple).value;
      RoleListRows(s, simple, u);
      assert d.name !in Names(simple);
      RoleListRefused(u, compound, e, d.name);
    }
  }

  /** Applying the section again, to a store with the same roles and function names, succeeds and
      changes nothing exactly when no compound role is listed as a child. */
  lemma RolesAgainIff(s: Store, ds: seq<Entry<RoleBody>>, t: Store, v: Store)
    requires AfterRoles(s, ds) == Ok(t) && DistinctNames(ds) && NoOwnChild(ds)
    requires v.roles == t.roles && v.functions.Keys == t.functions.Keys
    ensures NoCompoundChild(ds) ==> AfterRoles(v, ds) == Ok(v)
    ensures !NoCompoundChild(ds) ==> AfterRoles(v, ds).Err?
  {
    hide AfterRoleList;
    if NoCompoundChild(ds) {
      RolesApplied(s, ds, t);
      forall d <- ds ensures RoleHolds(v, d) {
        assert RoleHolds(t, d);
      }
      RolesFixed(v, ds);
    } else {
      var d, e :| d in ds && e in ds && d.body.roles != [] && d.name in e.body.roles;
      WhereElements(false, ds);
      WhereElements(true, ds);
      RoleListRows(AfterRoleList(s, RolesWhere(false, ds)).value, RolesWhere(true, ds), t);
      assert d.body.roles[0] in RoleRow(d).children;
      RolesRefused(v, ds, d, e);
    }
  }

  // ---- the section on a store without roles ----

  lemma {:induction false} SimpleSucceedIff(s: Store, ds: seq<Entry<RoleBody>>)
    requires forall d <- ds :: d.body.roles == []
    requires forall r <- s.roles :: s.roles[r].children == {}
    ensures AfterRoleList(s, ds).Ok? <==> forall d <- ds :: Ready(s, d)
    ensures AfterRoleList(s, ds).Ok? ==>
              forall r <- AfterRoleList(s, ds).value.roles :: AfterRoleList(s, ds).value.roles[r].children == {}
    decreases |ds|
  {
    if ds != [] {
      hide AfterRole;
      RoleIff(s, ds[0]);
      assert AfterRole(s, ds[0]).Ok? <==> Ready(s, ds[0]);
      assert forall d :: d in ds <==> d == ds[0] || d in ds[1..];
      if AfterRole(s, ds[0]).Ok? {
        var u := AfterRole(s, ds[0]).value;
        assert forall d <- ds[1..] :: Ready(u, d) <==> Ready(s, d);
        SimpleSucceedIff(u, ds[1..]);
      }
    }
  }

  /** Compound roles are accepted exactly when they list leaves only: a compound role that came
      earlier is refused for its children, one that comes later is not there yet. */
  lemma {:induction false} CompoundSucceedIff(s: Store, ds: seq<Entry<RoleBody>>, leaves: set<Name>)
    requires forall d <- ds :: d.body.roles != [] && d.name !in leaves
    requires leaves <= s.roles.Keys && forall r <- s.roles :: s.roles[r].children == {} <==> r in leaves
    ensures AfterRoleList(s, ds).Ok? <==> forall d <- ds :: Ready(s, d) && Elements(d.body.roles) <= leaves
    decreases |ds|
  {
    if ds != [] {
      var d := ds[0];
      RoleIff(s, d);
      assert ChildrenAreLeaves(s, d) <==> Elements(d.body.roles) <= leaves;
      assert ds == [d] + ds[1..];
      if AfterRole(s, d).Ok? {
        var u := AfterRole(s, d).value;
        assert d.body.roles[0] in RoleRow(d).children;
        assert forall e <- ds[1..] :: Ready(u, e) <==> Ready(s, e);
        CompoundSucceedIff(u, ds[1..], leaves);
      }
    }
  }

  /** Every child name is the name of a declared role without children. */
  predicate ChildrenAreDeclaredSimple(ds: seq<Entry<RoleBody>>) {
    forall d <- ds, c <- d.body.roles :: exists e <- ds :: e.name == c && e.body.roles == []
  }

  lemma SectionSucceedsIff(s: Store, ds: seq<Entry<RoleBody>>)
    requires s.roles == map[] && DistinctNames(ds)
    ensures AfterRoles(s, ds).Ok? <==> ChildrenAreDeclaredSimple(ds) && forall d <- ds :: Ready(s, d)
  {
    hide AfterRole, AfterRoleList, RolesWhere;
    var simple, compound := RolesWhere(false, ds), RolesWhere(true, ds);
    WhereElements(false, ds);
    WhereElements(true, ds);
    SimpleSucceedIff(s, simple);
    if AfterRoleList(s, simple).Ok? {
      var u := AfterRoleList(s, simple).value;
      RoleListFrame(s, simple, u);
      var leaves := Names(simple);
      assert u.roles.Keys == leaves;
      SameNameSameEntry(ds);
      CompoundSucceedIff(u, compound, leaves);
      assert forall d <- ds :: Ready(u, d) <==> Ready(s, d);
      forall d <- ds
        ensures (forall c <- d.body.roles :: exists e <- ds :: e.name == c && e.body.roles == []) <==>
                  Elements(d.body.roles) <= leaves
      {
        forall c <- d.body.roles ensures c in leaves <==> exists e <- ds :: e.name == c && e.body.roles == [] {
        }
      }
    }
  }

  lemma DeclaredSimpleMeansNoCompoundChild(ds: seq<Entry<RoleBody>>)
    requires DistinctNames(ds) && ChildrenAreDeclaredSimple(ds)
    ensures NoCompoundChild(ds)
  {
    SameNameSameEntry(ds);
  }

  /** On a store without roles the section succeeds exactly when every child is a declared simple
      role, the functions exist and no list repeats a row; the stored roles are then the declared ones
      and the graph has one level. */
  lemma SectionOnEmpty(s: Store, ds: seq<Entry<RoleBody>>)
    requires s.roles == map[] && DistinctNames(ds)
    ensures AfterRoles(s, ds).Ok? <==> ChildrenAreDeclaredSimple(ds) && forall d <- ds :: Ready(s, d)
    ensures AfterRoles(s, ds).Ok? ==>
              var t := AfterRoles(s, ds).value;
              && t == s.(roles := t.roles)
              && t.roles.Keys == Names(ds)
              && (forall d <- ds :: t.roles[d.name] == RoleRow(d))
              && OneLevel(RoleGraph(t))
  {
    SectionSucceedsIff(s, ds);
    if AfterRoles(s, ds).Ok? {
      DeclaredSimpleMeansNoCompoundChild(ds);
      var t := AfterRoles(s, ds).value;
      RolesApplied(s, ds, t);
      forall a <- RoleGraph(t), b <- RoleGraph(t)[a] ensures RoleGraph(t)[b] == {} {
        var d :| d in ds && d.name == a;
        assert RoleHolds(t, d);
      }
    }
  }

  /** The order in which the roles are listed decides neither success nor result. */
  lemma OrderIsImmaterial(s: Store, ds: seq<Entry<RoleBody>>, es: seq<Entry<RoleBody>>)
    requires s.roles == map[] && DistinctNames(ds) && DistinctNames(es) && Elements(ds) == Elements(es)
    ensures AfterRoles(s, ds).Ok? <==> AfterRoles(s, es).Ok?
    ensures AfterRoles(s, ds).Ok? ==> AfterRoles(s, ds) == AfterRoles(s, es)
  {
    hide AfterRoles, Ready, RoleRow, OneLevel;
    assert forall d :: d in ds <==> d in Elements(es);
    SectionOnEmpty(s, ds);
    SectionOnEmpty(s, es);
    if AfterRoles(s, ds).Ok? && AfterRoles(s, es).Ok? {
      assert AfterRoles(s, ds).value.roles == AfterRoles(s, es).value.roles;
    }
  }
}
