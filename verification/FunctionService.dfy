/** Creating, updating and deleting business functions. */
module FunctionService {
  import opened Results
  import opened Entries
  import opened Model
  import opened Graphs
  import opened Invariants
  import opened Assignments

  datatype FunctionSubmit = FunctionSubmit(name: Name, description: Text, application: Name, permissions: seq<Name>)

  /** For every held permission, the application function the database happens to list first. */
  type FirstRows = map<Name, Name>

  predicate ListsFirst(s: Store, first: FirstRows) {
    && first.Keys == Held(s.appFunctions)
    && forall p <- first :: first[p] in s.appFunctions && p in s.appFunctions[first[p]].permissions
  }

  /** Stops at the first permission that is unknown or whose first application function belongs to
      another application. */
  function CheckPermissions(s: Store, first: FirstRows, application: Name, permissions: seq<Name>): Outcome
    requires ListsFirst(s, first)
  {
    if permissions == [] then Pass
    else
      var p := permissions[0];
      if p !in s.permissions then Fail(NotFound(p))
      else if p !in first then Fail(EmptySequence(p))
      else if s.appFunctions[first[p]].application != application then Fail(NotProcessable(p))
      else CheckPermissions(s, first, application, permissions[1..])
  }

  function AfterWrite(s: Store, first: FirstRows, submit: FunctionSubmit): Result<Store>
    requires ListsFirst(s, first)
  {
    if submit.application !in s.applications then Err(NotFound(submit.application))
    else
      CheckPermissions(s, first, submit.application, submit.permissions).Then(
        CheckKeys(submit.name, submit.permissions).Then(
          Ok(s.(functions := s.functions[submit.name :=
                  Function(Some(submit.application), submit.description, Elements(submit.permissions))]))))
  }

  function AfterCreate(s: Store, first: FirstRows, submit: FunctionSubmit): Result<Store>
    requires ListsFirst(s, first)
  {
    if submit.name in s.functions then Err(NotProcessable(submit.name)) else AfterWrite(s, first, submit)
  }

  function AfterRename(s: Store, from: Name, to: Name): Store
    requires from in s.functions
  {
    if from == to then s else
      s.(functions := map f | f in s.functions.Keys - {from} + {to} :: s.functions[Renamed(f, to, from)],
         roles := map r | r in s.roles :: s.roles[r].(functions := RenameIn(s.roles[r].functions, from, to)))
  }

  function AfterUpdate(s: Store, first: FirstRows, target: Name, submit: FunctionSubmit): Result<Store>
    requires ListsFirst(s, first)
  {
    if target !in s.functions then Err(NotFound(target))
    else if target != submit.name && submit.name in s.functions then Err(NotProcessable(submit.name))
    else AfterWrite(AfterRename(s, target, submit.name), first, submit)
  }

  /** Deleting functions deletes the rows that assign them to roles. */
  function WithoutFunctions(s: Store, gone: set<Name>): Store {
    s.(functions := s.functions - gone,
       roles := map r | r in s.roles :: s.roles[r].(functions := s.roles[r].functions - gone))
  }

  function AfterDelete(s: Store, target: Name): Result<Store> {
    if target !in s.functions then Err(NotFound(target)) else Ok(WithoutFunctions(s, {target}))
  }

  method AssignPermissions(s: Store, first: FirstRows, application: Name, permissions: seq<Name>)
    returns (r: Outcome, rows: seq<Name>)
    requires ListsFirst(s, first)
    ensures r == CheckPermissions(s, first, application, permissions)
    ensures r.Pass? ==> rows == permissions
  {
    rows := [];
    for i := 0 to |permissions|
      invariant rows == permissions[..i]
      invariant CheckPermissions(s, first, application, permissions) ==
                CheckPermissions(s, first, application, permissions[i..])
    {
      var p := permissions[i];
      if p !in s.permissions {
        return Fail(NotFound(p)), rows;
      }
      if p !in first {
        return Fail(EmptySequence(p)), rows;
      }
      if s.appFunctions[first[p]].application != application {
        return Fail(NotProcessable(p)), rows;
      }
      rows := rows + [p];
    }
    return Pass, rows;
  }

  method Create(db: A3SContext, first: FirstRows, submit: FunctionSubmit) returns (r: Outcome)
    requires ListsFirst(db.State(), first)
    modifies db`functions
    ensures Realises(r, db.State(), AfterCreate(old(db.State()), first, submit))
    ensures r.Fail? ==> db.State() == old(db.State())
  {
    if submit.name in db.functions {
      return Fail(NotProcessable(submit.name));
    }
    if submit.application !in db.applications {
      return Fail(NotFound(submit.application));
    }
    var rows: seq<Name>;
    r, rows := AssignPermissions(db.State(), first, submit.application, submit.permissions);
    if r.Fail? {
      return;
    }
    if !Distinct(rows) {
      return Fail(Conflict(submit.name));
    }
    db.functions := db.functions[submit.name := Function(Some(submit.application), submit.description, Elements(rows))];
  }

  method Update(db: A3SContext, first: FirstRows, target: Name, submit: FunctionSubmit) returns (r: Outcome)
    requires ListsFirst(db.State(), first)
    modifies db`functions, db`roles
    ensures Realises(r, db.State(), AfterUpdate(old(db.State()), first, target, submit))
    ensures r.Fail? ==> db.State() == old(db.State())
  {
    if target !in db.functions {
      return Fail(NotFound(target));
    }
    if target != submit.name && submit.name in db.functions {
      return Fail(NotProcessable(submit.name));
    }
    if submit.application !in db.applications {
      return Fail(NotFound(submit.application));
    }
    var tracked := AfterRename(db.State(), target, submit.name);
    var rows: seq<Name>;
    r, rows := AssignPermissions(tracked, first, submit.application, submit.permissions);
    if r.Fail? {
      return;
    }
    if !Distinct(rows) {
      return Fail(Conflict(submit.name));
    }
    var fn := Function(Some(submit.application), submit.description, Elements(rows));
    db.functions := tracked.functions[submit.name := fn];
    db.roles := tracked.roles;
  }

  method Delete(db: A3SContext, target: Name) returns (r: Outcome)
    modifies db`functions, db`roles
    ensures Realises(r, db.State(), AfterDelete(old(db.State()), target))
    ensures r.Fail? ==> db.State() == old(db.State())
  {
    if target !in db.functions {
      return Fail(NotFound(target));
    }
    var remaining := WithoutFunctions(db.State(), {target});
    db.functions, db.roles := remaining.functions, remaining.roles;
    r := Pass;
  }

  /** A permission passes when it is stored, held, and the application function listed first belongs to the
      application. */
  predicate Passes(s: Store, first: FirstRows, application: Name, p: Name)
    requires ListsFirst(s, first)
  {
    p in s.permissions && p in first && s.appFunctions[first[p]].application == application
  }

  /** The first permission that does not pass decides the answer. */
  lemma {:induction false} FirstRefused(s: Store, first: FirstRows, application: Name, permissions: seq<Name>, i: nat)
    requires ListsFirst(s, first) && i <= |permissions|
    requires forall j :: 0 <= j < i ==> Passes(s, first, application, permissions[j])
    ensures i == |permissions| ==> CheckPermissions(s, first, application, permissions).Pass?
    ensures i < |permissions| && !Passes(s, first, application, permissions[i]) ==>
              var p := permissions[i];
              CheckPermissions(s, first, application, permissions) ==
                Fail(if p !in s.permissions then NotFound(p)
                     else if forall f <- s.appFunctions :: p !in s.appFunctions[f].permissions then EmptySequence(p)
                     else NotProcessable(p))
    decreases i
  {
    if i > 0 {
      FirstRefused(s, first, application, permissions[1..], i - 1);
    }
  }

  /** What the check lets through, whatever row the database lists first. */
  lemma {:induction false} CheckedPermissionsAreHeld(s: Store, first: FirstRows, application: Name,
                                                     permissions: seq<Name>)
    requires ListsFirst(s, first) && CheckPermissions(s, first, application, permissions).Pass?
    ensures Elements(permissions) <= HeldBy(s.appFunctions, application) && Elements(permissions) <= s.permissions.Keys
  {
    if permissions != [] {
      assert Elements(permissions) == {permissions[0]} + Elements(permissions[1..]);
      CheckedPermissionsAreHeld(s, first, application, permissions[1..]);
    }
  }

  /** Where every stored permission is held and none is shared between applications, the check
      accepts exactly the application's own permissions. */
  lemma {:induction false} CheckIsExact(s: Store, first: FirstRows, application: Name, permissions: seq<Name>)
    requires WellFormed(s) && PermissionsHeld(s) && Unshared(s) && ListsFirst(s, first)
    ensures CheckPermissions(s, first, application, permissions).Pass? <==>
              Elements(permissions) <= HeldBy(s.appFunctions, application)
  {
    if permissions != [] {
      var p := permissions[0];
      assert Elements(permissions) == {p} + Elements(permissions[1..]);
      if f :| f in s.appFunctions && s.appFunctions[f].application == application
              && p in s.appFunctions[f].permissions {
        assert p in Held(s.appFunctions) && p in s.appFunctions[first[p]].permissions;
        assert s.appFunctions[first[p]].application == application;
      }
      CheckIsExact(s, first, application, permissions[1..]);
    }
  }

  /** Where every stored permission is held, `First()` always finds a row. */
  lemma {:induction false} HeldNeverEmpty(s: Store, first: FirstRows, application: Name, permissions: seq<Name>)
    requires PermissionsHeld(s) && ListsFirst(s, first)
    ensures var o := CheckPermissions(s, first, application, permissions);
            o.Fail? ==> !o.error.EmptySequence?
  {
    if permissions != [] {
      HeldNeverEmpty(s, first, application, permissions[1..]);
    }
  }

  lemma WriteKeeps(s: Store, first: FirstRows, submit: FunctionSubmit)
    requires Sound(s) && ListsFirst(s, first) && AfterWrite(s, first, submit).Ok?
    ensures Sound(AfterWrite(s, first, submit).value)
    ensures FunctionsCovered(s) ==> FunctionsCovered(AfterWrite(s, first, submit).value)
  {
    var t := AfterWrite(s, first, submit).value;
    CheckedPermissionsAreHeld(s, first, submit.application, submit.permissions);
    assert RoleGraph(t) == RoleGraph(s) && TeamGraph(t) == TeamGraph(s);
  }

  lemma RenameKeeps(s: Store, from: Name, to: Name)
    requires Sound(s) && from in s.functions && (from == to || to !in s.functions)
    ensures Sound(AfterRename(s, from, to))
    ensures FunctionsCovered(s) ==> FunctionsCovered(AfterRename(s, from, to))
  {
    var t := AfterRename(s, from, to);
    assert RoleGraph(t) == RoleGraph(s) && TeamGraph(t) == TeamGraph(s);
  }

  lemma WithoutFunctionsKeeps(s: Store, gone: set<Name>)
    requires Sound(s)
    ensures Sound(WithoutFunctions(s, gone))
    ensures FunctionsCovered(s) ==> FunctionsCovered(WithoutFunctions(s, gone))
  {
    var t := WithoutFunctions(s, gone);
    assert RoleGraph(t) == RoleGraph(s) && TeamGraph(t) == TeamGraph(s);
  }

  // ---- what is accepted, and what is stored ----

  /** Where no permission is shared, a function is accepted exactly when its application exists and holds
      all its permissions, named once, and then nothing but the function is stored. */
  lemma CreateIff(s: Store, first: FirstRows, submit: FunctionSubmit)
    requires WellFormed(s) && PermissionsHeld(s) && Unshared(s) && ListsFirst(s, first)
    ensures AfterCreate(s, first, submit).Ok? <==>
              && submit.name !in s.functions && submit.application in s.applications
              && Elements(submit.permissions) <= HeldBy(s.appFunctions, submit.application)
              && Distinct(submit.permissions)
    ensures submit.name in s.functions ==> AfterCreate(s, first, submit) == Err(NotProcessable(submit.name))
    ensures submit.name !in s.functions && submit.application !in s.applications ==>
              AfterCreate(s, first, submit) == Err(NotFound(submit.application))
    ensures AfterCreate(s, first, submit).Ok? ==>
              AfterCreate(s, first, submit).value == s.(functions := s.functions[submit.name :=
                Function(Some(submit.application), submit.description, Elements(submit.permissions))])
  {
    CheckIsExact(s, first, submit.application, submit.permissions);
  }

  lemma RenamedRows(s: Store, from: Name, to: Name)
    requires from in s.functions && (from == to || to !in s.functions)
    ensures var t := AfterRename(s, from, to);
            && t == s.(functions := t.functions, roles := t.roles)
            && t.functions.Keys == s.functions.Keys - {from} + {to} && t.roles.Keys == s.roles.Keys
            && (forall f <- t.functions :: f != to ==> t.functions[f] == s.functions[f])
            && (forall r <- s.roles :: t.roles[r] == s.roles[r].(functions := RenameIn(s.roles[r].functions, from, to)))
  {
    forall xs ensures from == to ==> RenameIn(xs, from, to) == xs {
      RenameToItself(xs, from);
    }
  }

  /** When an update is accepted, on the same condition. */
  lemma UpdateIff(s: Store, first: FirstRows, target: Name, submit: FunctionSubmit)
    requires WellFormed(s) && PermissionsHeld(s) && Unshared(s) && ListsFirst(s, first)
    ensures AfterUpdate(s, first, target, submit).Ok? <==>
              && target in s.functions && (submit.name == target || submit.name !in s.functions)
              && submit.application in s.applications
              && Elements(submit.permissions) <= HeldBy(s.appFunctions, submit.application)
              && Distinct(submit.permissions)
    ensures target !in s.functions ==> AfterUpdate(s, first, target, submit) == Err(NotFound(target))
    ensures target in s.functions && submit.name != target && submit.name in s.functions ==>
              AfterUpdate(s, first, target, submit) == Err(NotProcessable(submit.name))
  {
    hide WellFormed, PermissionsHeld, Unshared, HeldBy;
    if target in s.functions && (submit.name == target || submit.name !in s.functions) {
      var b := AfterRename(s, target, submit.name);
      SameCheck(s, b, first, submit.application, submit.permissions);
      CheckIsExact(s, first, submit.application, submit.permissions);
    }
  }

  lemma {:induction false} SameCheck(s: Store, b: Store, first: FirstRows, application: Name, permissions: seq<Name>)
    requires ListsFirst(s, first) && b.appFunctions == s.appFunctions && b.permissions == s.permissions
    ensures CheckPermissions(b, first, application, permissions) == CheckPermissions(s, first, application, permissions)
  {
    if permissions != [] {
      SameCheck(s, b, first, application, permissions[1..]);
    }
  }

  /** What an update stores: the submitted function, under its new name wherever roles refer to it. */
  lemma UpdateStores(s: Store, first: FirstRows, target: Name, submit: FunctionSubmit, t: Store)
    requires ListsFirst(s, first) && AfterUpdate(s, first, target, submit) == Ok(t)
    ensures t == s.(functions := t.functions, roles := t.roles)
    ensures t.functions.Keys == s.functions.Keys - {target} + {submit.name} && t.roles.Keys == s.roles.Keys
    ensures t.functions[submit.name] ==
            Function(Some(submit.application), submit.description, Elements(submit.permissions))
    ensures forall f <- t.functions :: f != submit.name ==> t.functions[f] == s.functions[f]
    ensures forall r <- s.roles ::
              t.roles[r] == s.roles[r].(functions := RenameIn(s.roles[r].functions, target, submit.name))
    ensures Elements(submit.permissions) <= HeldBy(s.appFunctions, submit.application)
  {
    RenamedRows(s, target, submit.name);
    var b := AfterRename(s, target, submit.name);
    hide AfterRename, RenameIn, HeldBy;
    CheckedPermissionsAreHeld(b, first, submit.application, submit.permissions);
  }

  /** Every role loses exactly the deleted functions. */
  lemma WithoutFunctionsLeaves(s: Store, gone: set<Name>)
    ensures var t := WithoutFunctions(s, gone);
            && t == s.(functions := t.functions, roles := t.roles)
            && t.functions.Keys == s.functions.Keys - gone && t.roles.Keys == s.roles.Keys
            && (forall f <- t.functions :: t.functions[f] == s.functions[f])
            && forall r <- s.roles ::
                 && t.roles[r] == s.roles[r].(functions := t.roles[r].functions)
                 && forall f :: f in t.roles[r].functions <==> f in s.roles[r].functions && f !in gone
  {
  }

  /** What a deletion leaves: every function but one, and the roles without it. */
  lemma DeleteIff(s: Store, target: Name)
    ensures target in s.functions ==> AfterDelete(s, target).Ok?
    ensures target !in s.functions ==> AfterDelete(s, target) == Err(NotFound(target))
    ensures AfterDelete(s, target).Ok? ==>
              var t := AfterDelete(s, target).value;
              && t == s.(functions := t.functions, roles := t.roles)
              && t.functions.Keys == s.functions.Keys - {target} && t.roles.Keys == s.roles.Keys
              && (forall f <- t.functions :: t.functions[f] == s.functions[f])
              && forall r <- s.roles ::
                   && t.roles[r] == s.roles[r].(functions := t.roles[r].functions)
                   && forall f :: f in t.roles[r].functions <==> f in s.roles[r].functions && f != target
  {
    hide WithoutFunctions;
    WithoutFunctionsLeaves(s, {target});
  }
}
