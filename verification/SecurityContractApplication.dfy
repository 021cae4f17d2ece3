/** Applying the declaration of one application (resource server): its application functions, the
    permissions they hold, and its data policies. */
module SecurityContractApplication {
  import opened Results
  import opened Entries
  import opened Model
  import opened Invariants

  datatype AppFunctionBody = AppFunctionBody(description: Text, permissions: seq<Entry<Text>>)
  datatype ApplicationBody = ApplicationBody(functions: seq<Entry<AppFunctionBody>>, policies: seq<Entry<Text>>)
  type ApplicationDecl = Entry<ApplicationBody>

  /** An application function in memory: the permissions it was loaded with that are still listed,
      and the rows added since. A row names a stored permission or brings a new one. */
  datatype Tracked = Tracked(description: Text, kept: set<Name>, added: seq<Entry<Text>>) {
    function Permissions(): set<Name> { kept + Names(added) }
  }

  function AddIfAbsent(t: Tracked, p: Entry<Text>): Tracked {
    if p.name in t.Permissions() then t else t.(added := t.added + [p])
  }

  function AddAll(t: Tracked, ps: seq<Entry<Text>>): Tracked
    decreases |ps|
  {
    if ps == [] then t else AddAll(AddIfAbsent(t, ps[0]), ps[1..])
  }

  function Only(xs: seq<Entry<Text>>, names: set<Name>): seq<Entry<Text>> {
    if xs == [] then []
    else (if xs[0].name in names then [xs[0]] else []) + Only(xs[1..], names)
  }

  /** An existing application function after its declaration is applied to it. */
  function Edited(t: Tracked, body: AppFunctionBody): Tracked {
    var grown := AddAll(t, body.permissions);
    Tracked(body.description, grown.kept * Names(body.permissions), Only(grown.added, Names(body.permissions)))
  }

  function Created(body: AppFunctionBody): Tracked {
    Tracked(body.description, {}, body.permissions)
  }

  function Synchronised(m: map<Name, Tracked>, fs: seq<Entry<AppFunctionBody>>): map<Name, Tracked>
    decreases |fs|
  {
    if fs == [] then m else
      var f := fs[0];
      Synchronised(m[f.name := if f.name in m then Edited(m[f.name], f.body) else Created(f.body)], fs[1..])
  }

  function Load(s: Store, app: Name): map<Name, Tracked> {
    map f | f in s.appFunctions && s.appFunctions[f].application == app ::
      Tracked(s.appFunctions[f].description, s.appFunctions[f].permissions, [])
  }

  /** Rows `i` of `f` and `j` of `g` name the same permission and cannot both be saved: they are rows of
      one function, or both bring the permission anew. */
  predicate SameRow(stored: set<Name>, m: map<Name, Tracked>, f: Name, i: int, g: Name, j: int) {
    && f in m && 0 <= i < |m[f].added| && g in m && 0 <= j < |m[g].added|
    && m[f].added[i].name == m[g].added[j].name
    && if f == g then i != j else m[f].added[i].name !in stored
  }

  predicate Clash(stored: set<Name>, m: map<Name, Tracked>) {
    exists f, i, g, j {:trigger SameRow(stored, m, f, i, g, j)} ::
      f in m && 0 <= i < |m[f].added| && g in m && 0 <= j < |m[g].added| && SameRow(stored, m, f, i, g, j)
  }

  lemma NoClash(stored: set<Name>, m: map<Name, Tracked>)
    requires !Clash(stored, m)
    ensures forall f, i, g, j ::
              (&& f in m && 0 <= i < |m[f].added| && g in m && 0 <= j < |m[g].added|
               && m[f].added[i].name == m[g].added[j].name && m[f].added[i].name !in stored) ==>
                f == g && i == j
  {
    forall f, i, g, j | f in m && 0 <= i < |m[f].added| && g in m && 0 <= j < |m[g].added|
                        && m[f].added[i].name == m[g].added[j].name && m[f].added[i].name !in stored
      ensures f == g && i == j
    {
      assert (f == g && i == j) || SameRow(stored, m, f, i, g, j);
    }
  }

  predicate NameTaken(s: Store, app: Name, names: set<Name>) {
    exists f <- names :: f in s.appFunctions && s.appFunctions[f].application != app
  }

  function NewPermissions(stored: set<Name>, m: map<Name, Tracked>): map<Name, Text>
    requires !Clash(stored, m)
  {
    NoClash(stored, m);
    map f, i | f in m && 0 <= i < |m[f].added| && m[f].added[i].name !in stored ::
      m[f].added[i].name := m[f].added[i].body
  }

  function Rows(app: Name, m: map<Name, Tracked>): map<Name, AppFunction> {
    map f | f in m :: AppFunction(app, m[f].description, m[f].Permissions())
  }

  /** Saving an application with the application functions in memory: the unique constraints on
      application function names and permission names decide whether the database accepts it. */
  function Saved(s: Store, app: Name, m: map<Name, Tracked>): Result<Store> {
    if NameTaken(s, app, m.Keys) || Clash(s.permissions.Keys, m) then Err(Conflict(app))
    else Ok(s.(applications := s.applications + {app},
               permissions := s.permissions + NewPermissions(s.permissions.Keys, m),
               appFunctions := s.appFunctions + Rows(app, m)))
  }

  function WithoutUndeclared(s: Store, app: Name, declared: set<Name>): Store {
    s.(appFunctions := map f | f in s.appFunctions && (s.appFunctions[f].application == app ==> f in declared) ::
         s.appFunctions[f])
  }

  /** Deletes permissions and with them the rows that put them into business functions. */
  function WithoutPermissions(s: Store, gone: set<Name>): Store {
    s.(permissions := s.permissions - gone,
       functions := map f | f in s.functions :: s.functions[f].(permissions := s.functions[f].permissions - gone))
  }

  function WithoutOrphans(s: Store): Store {
    WithoutPermissions(s, s.permissions.Keys - Held(s.appFunctions))
  }

  predicate PolicyGone(s: Store, app: Name, declared: set<Name>, p: Name) {
    p in s.dataPolicies && s.dataPolicies[p].application == app && p !in declared
  }

  function WithoutPolicies(s: Store, gone: set<Name>): Store {
    s.(dataPolicies := s.dataPolicies - gone,
       teams := map t | t in s.teams :: s.teams[t].(policies := s.teams[t].policies - gone))
  }

  function PutPolicies(m: map<Name, DataPolicy>, app: Name, ps: seq<Entry<Text>>): map<Name, DataPolicy>
    decreases |ps|
  {
    if ps == [] then m else PutPolicies(m[ps[0].name := DataPolicy(app, ps[0].body)], app, ps[1..])
  }

  function PoliciesSynchronised(s: Store, app: Name, ps: seq<Entry<Text>>): Result<Store> {
    var t := WithoutPolicies(s, set p | p in s.dataPolicies && PolicyGone(s, app, Names(ps), p));
    if exists p <- Names(ps) :: p in t.dataPolicies && t.dataPolicies[p].application != app then Err(Conflict(app))
    else Ok(t.(dataPolicies := PutPolicies(t.dataPolicies, app, ps)))
  }

  function AfterCreate(s: Store, d: ApplicationDecl): Result<Store> {
    if !DistinctNames(d.body.functions) then Err(Conflict(d.name))
    else
      var t :- Saved(s.(apiResources := s.apiResources + {d.name}), d.name, Synchronised(map[], d.body.functions));
      PoliciesSynchronised(t, d.name, d.body.policies)
  }

  function AfterUpdate(s: Store, d: ApplicationDecl): Result<Store> {
    var t :- Saved(s, d.name, Synchronised(Load(s, d.name), d.body.functions));
    PoliciesSynchronised(WithoutOrphans(WithoutUndeclared(t, d.name, Names(d.body.functions))), d.name, d.body.policies)
  }

  function AfterApply(s: Store, d: ApplicationDecl): Result<Store> {
    if d.name in s.applications then AfterUpdate(s, d) else AfterCreate(s, d)
  }

  lemma WithoutNothing(s: Store)
    ensures WithoutPermissions(s, {}) == s && WithoutPolicies(s, {}) == s
  {
    assert forall f <- s.functions :: s.functions[f].permissions - {} == s.functions[f].permissions;
    assert forall t <- s.teams :: s.teams[t].policies - {} == s.teams[t].policies;
    var a, b := WithoutPermissions(s, {}), WithoutPolicies(s, {});
    assert a.functions == s.functions && a.permissions == s.permissions;
    assert b.teams == s.teams && b.dataPolicies == s.dataPolicies;
  }

  lemma WithoutOneMorePermission(s: Store, gone: set<Name>, one: Name)
    ensures WithoutPermissions(WithoutPermissions(s, gone), {one}) == WithoutPermissions(s, gone + {one})
  {
    assert forall xs: set<Name> :: xs - gone - {one} == xs - (gone + {one});
    var a, b := WithoutPermissions(WithoutPermissions(s, gone), {one}), WithoutPermissions(s, gone + {one});
    assert a.functions == b.functions && a.permissions == b.permissions;
  }

  lemma WithoutOneMorePolicy(s: Store, gone: set<Name>, one: Name)
    ensures WithoutPolicies(WithoutPolicies(s, gone), {one}) == WithoutPolicies(s, gone + {one})
  {
    assert forall xs: set<Name> :: xs - gone - {one} == xs - (gone + {one});
    var c, d := WithoutPolicies(WithoutPolicies(s, gone), {one}), WithoutPolicies(s, gone + {one});
    assert c.teams == d.teams && c.dataPolicies == d.dataPolicies;
  }

  method AddPermissions(tracked: Tracked, ps: seq<Entry<Text>>) returns (t: Tracked)
    ensures t == AddAll(tracked, ps)
  {
    t := tracked;
    for i := 0 to |ps|
      invariant AddAll(tracked, ps) == AddAll(t, ps[i..])
    {
      if ps[i].name !in t.Permissions() {
        t := t.(added := t.added + [ps[i]]);
      }
    }
  }

  /** Walks the loaded rows and then, from the last to the first, the rows added since. */
  method DropUndeclared(tracked: Tracked, declared: set<Name>) returns (t: Tracked)
    ensures t == tracked.(kept := tracked.kept * declared, added := Only(tracked.added, declared))
  {
    t := tracked;
    var rows := Listing(tracked.kept);
    for i := |rows| downto 0
      invariant t == tracked.(kept := tracked.kept - (Elements(rows[i..]) - declared))
    {
      assert rows[i..] == [rows[i]] + rows[i + 1..];
      if rows[i] !in declared {
        t := t.(kept := t.kept - {rows[i]});
      }
    }
    assert t.kept == tracked.kept * declared;
    for i := |tracked.added| downto 0
      invariant t == tracked.(kept := tracked.kept * declared,
                               added := tracked.added[..i] + Only(tracked.added[i..], declared))
    {
      if tracked.added[i].name !in declared {
        t := t.(added := t.added[..i] + t.added[i + 1..]);
      }
    }
  }

  method SynchroniseFunctions(loaded: map<Name, Tracked>, fs: seq<Entry<AppFunctionBody>>)
    returns (m: map<Name, Tracked>)
    ensures m == Synchronised(loaded, fs)
  {
    m := loaded;
    for i := 0 to |fs|
      invariant Synchronised(loaded, fs) == Synchronised(m, fs[i..])
    {
      var f := fs[i];
      var t := Created(f.body);
      if f.name in m {
        t := AddPermissions(m[f.name], f.body.permissions);
        t := DropUndeclared(t, Names(f.body.permissions));
        t := t.(description := f.body.description);
      }
      m := m[f.name := t];
    }
  }

  /** `SaveChanges` for one application. */
  method Save(db: A3SContext, app: Name, m: map<Name, Tracked>) returns (r: Outcome)
    modifies db`applications, db`permissions, db`appFunctions
    ensures Realises(r, db.State(), Saved(old(db.State()), app, m))
  {
    match Saved(db.State(), app, m)
    case Ok(t) =>
      db.applications, db.permissions, db.appFunctions := t.applications, t.permissions, t.appFunctions;
      r := Pass;
    case Err(e) =>
      r := Fail(e);
  }

  method RemoveUndeclaredFunctions(db: A3SContext, app: Name, declared: set<Name>)
    modifies db`appFunctions
    ensures db.State() == WithoutUndeclared(old(db.State()), app, declared)
  {
    var rows := Listing(set f | f in db.appFunctions && db.appFunctions[f].application == app);
    ghost var before := db.State();
    for i := |rows| downto 0
      invariant db.State() == before.(appFunctions := before.appFunctions - (Elements(rows[i..]) - declared))
    {
      assert rows[i..] == [rows[i]] + rows[i + 1..];
      if rows[i] !in declared {
        db.appFunctions := db.appFunctions - {rows[i]};
      }
    }
    assert db.State() == WithoutUndeclared(before, app, declared);
  }

  method RemoveOrphans(db: A3SContext)
    modifies db`permissions, db`functions
    ensures db.State() == WithoutOrphans(old(db.State()))
  {
    var rows := Listing(db.permissions.Keys - Held(db.appFunctions));
    ghost var before := db.State();
    WithoutNothing(before);
    assert Elements(rows[..0]) == {};
    for i := 0 to |rows|
      invariant db.State() == WithoutPermissions(before, Elements(rows[..i]))
    {
      assert rows[..i + 1] == rows[..i] + [rows[i]];
      WithoutOneMorePermission(before, Elements(rows[..i]), rows[i]);
      assert Elements(rows[..i + 1]) == Elements(rows[..i]) + {rows[i]};
      var remaining := WithoutPermissions(db.State(), {rows[i]});
      db.permissions, db.functions := remaining.permissions, remaining.functions;
    }
    assert rows[..|rows|] == rows;
  }

  method RemoveUndeclaredPolicies(db: A3SContext, app: Name, declared: set<Name>)
    modifies db`dataPolicies, db`teams
    ensures var s := old(db.State());
            db.State() == WithoutPolicies(s, set p | p in s.dataPolicies && PolicyGone(s, app, declared, p))
  {
    ghost var before := db.State();
    var rows := Listing(set p | p in db.dataPolicies && db.dataPolicies[p].application == app);
    WithoutNothing(before);
    assert Elements(rows[|rows|..]) - declared == {};
    for i := |rows| downto 0
      invariant db.State() == WithoutPolicies(before, Elements(rows[i..]) - declared)
    {
      assert rows[i..] == [rows[i]] + rows[i + 1..];
      ghost var gone := Elements(rows[i + 1..]) - declared;
      if rows[i] in declared {
        assert Elements(rows[i..]) - declared == gone;
      } else {
        assert Elements(rows[i..]) - declared == gone + {rows[i]};
        WithoutOneMorePolicy(before, gone, rows[i]);
        var remaining := WithoutPolicies(db.State(), {rows[i]});
        db.dataPolicies, db.teams := remaining.dataPolicies, remaining.teams;
      }
    }
    assert Elements(rows) - declared == set p | p in before.dataPolicies && PolicyGone(before, app, declared, p);
  }

  method SynchronisePolicies(db: A3SContext, app: Name, ps: seq<Entry<Text>>) returns (r: Outcome)
    modifies db`dataPolicies, db`teams
    ensures Realises(r, db.State(), PoliciesSynchronised(old(db.State()), app, ps))
  {
    RemoveUndeclaredPolicies(db, app, Names(ps));
    if exists p <- Names(ps) :: p in db.dataPolicies && db.dataPolicies[p].application != app {
      return Fail(Conflict(app));
    }
    ghost var kept := db.State();
    for i := 0 to |ps|
      invariant PutPolicies(kept.dataPolicies, app, ps) == PutPolicies(db.dataPolicies, app, ps[i..])
      invariant db.State() == kept.(dataPolicies := db.dataPolicies)
    {
      db.dataPolicies := db.dataPolicies[ps[i].name := DataPolicy(app, ps[i].body)];
    }
    r := Pass;
  }

  method Apply(db: A3SContext, d: ApplicationDecl) returns (r: Outcome)
    modifies db
    ensures Realises(r, db.State(), AfterApply(old(db.State()), d))
  {
    var functions := d.body.functions;
    if d.name !in db.applications {
      db.apiResources := db.apiResources + {d.name};
      if !DistinctNames(functions) {
        return Fail(Conflict(d.name));
      }
      var m := SynchroniseFunctions(map[], functions);
      :- Save(db, d.name, m);
    } else {
      var m := SynchroniseFunctions(Load(db.State(), d.name), functions);
      :- Save(db, d.name, m);
      RemoveUndeclaredFunctions(db, d.name, Names(functions));
      RemoveOrphans(db);
    }
    r := SynchronisePolicies(db, d.name, d.body.policies);
  }
}
