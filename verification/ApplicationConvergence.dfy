/** What applying an application declaration achieves, when it succeeds, and what it leaves alone. */
module ApplicationConvergence {
  import opened Results
  import opened Entries
  import opened Model
  import opened SecurityContractApplication

  // ---- one application function ----

  lemma {:induction false} AddAllGrows(t: Tracked, ps: seq<Entry<Text>>)
    ensures var u := AddAll(t, ps);
            && u.kept == t.kept && t.added <= u.added
            && u.Permissions() == t.Permissions() + Names(ps)
    ensures DistinctNames(t.added) && t.kept !! Names(t.added) ==>
              DistinctNames(AddAll(t, ps).added) && t.kept !! Names(AddAll(t, ps).added)
    decreases |ps|
  {
    if ps != [] {
      NamesAppend(t.added, ps[0]);
      NamesSplit(ps);
      AddAllGrows(AddIfAbsent(t, ps[0]), ps[1..]);
    }
  }

  lemma {:induction false} OnlyNames(xs: seq<Entry<Text>>, names: set<Name>)
    ensures Names(Only(xs, names)) == Names(xs) * names
    ensures forall x <- Only(xs, names) :: x in xs
  {
    if xs != [] {
      OnlyNames(xs[1..], names);
      NamesSplit(xs);
      var rest := Only(xs[1..], names);
      if xs[0].name in names {
        NamesSplit([xs[0]] + rest);
        assert ([xs[0]] + rest)[1..] == rest;
      } else {
        assert Only(xs, names) == rest;
      }
    }
  }

  lemma {:induction false} OnlyDistinct(xs: seq<Entry<Text>>, names: set<Name>)
    requires DistinctNames(xs)
    ensures DistinctNames(Only(xs, names))
  {
    if xs != [] {
      hide DistinctNames, Names;
      DistinctSplit(xs);
      OnlyDistinct(xs[1..], names);
      OnlyNames(xs[1..], names);
      var rest := Only(xs[1..], names);
      assert ([xs[0]] + rest)[1..] == rest;
      DistinctSplit([xs[0]] + rest);
      assert [] + rest == rest;
    }
  }

  /** The add-if-absent loop followed by the deletion loop leaves exactly the declared permissions. */
  lemma EditedIsDeclared(t: Tracked, body: AppFunctionBody)
    ensures Edited(t, body).Permissions() == Names(body.permissions)
  {
    AddAllGrows(t, body.permissions);
    OnlyNames(AddAll(t, body.permissions).added, Names(body.permissions));
  }

  /** What is added to a loaded function is what it did not hold, once each. */
  lemma EditedAdds(t: Tracked, body: AppFunctionBody)
    requires t.added == []
    ensures var e := Edited(t, body);
            && DistinctNames(e.added)
            && Names(e.added) == Names(body.permissions) - t.kept
            && e.kept == t.kept * Names(body.permissions)
  {
    AddAllGrows(t, body.permissions);
    OnlyNames(AddAll(t, body.permissions).added, Names(body.permissions));
    OnlyDistinct(AddAll(t, body.permissions).added, Names(body.permissions));
  }

  // ---- all application functions of the declaration ----

  lemma {:induction false} SynchronisedKeys(m: map<Name, Tracked>, fs: seq<Entry<AppFunctionBody>>)
    ensures Synchronised(m, fs).Keys == m.Keys + Names(fs)
    ensures forall f <- m :: f !in Names(fs) ==> Synchronised(m, fs)[f] == m[f]
    decreases |fs|
  {
    if fs != [] {
      hide Edited, Created;
      var f := fs[0];
      SynchronisedKeys(m[f.name := if f.name in m then Edited(m[f.name], f.body) else Created(f.body)], fs[1..]);
      NamesSplit(fs);
    }
  }

  /** The last entry under a name decides what is held under it, whatever was loaded. */
  lemma {:induction false} SynchronisedFinally(m: map<Name, Tracked>, fs: seq<Entry<AppFunctionBody>>, name: Name)
    requires name in Names(fs)
    ensures var n := Synchronised(m, fs);
            && name in n && n[name].description == Final(fs, name).description
            && n[name].Permissions() == Names(Final(fs, name).permissions)
    decreases |fs|
  {
    hide Edited, Created;
    var f := fs[0];
    var n := m[f.name := if f.name in m then Edited(m[f.name], f.body) else Created(f.body)];
    SynchronisedKeys(n, fs[1..]);
    NamesSplit(fs);
    if name in Names(fs[1..]) {
      SynchronisedFinally(n, fs[1..], name);
    } else {
      WrittenIsDeclared(m, f);
    }
  }

  lemma WrittenIsDeclared(m: map<Name, Tracked>, f: Entry<AppFunctionBody>)
    ensures var t := if f.name in m then Edited(m[f.name], f.body) else Created(f.body);
            t.description == f.body.description && t.Permissions() == Names(f.body.permissions)
  {
    if f.name in m {
      EditedIsDeclared(m[f.name], f.body);
    }
  }

  lemma {:induction false} SynchronisedAt(m: map<Name, Tracked>, fs: seq<Entry<AppFunctionBody>>)
    ensures Synchronised(m, fs).Keys == m.Keys + Names(fs)
    ensures forall f <- m :: f !in Names(fs) ==> Synchronised(m, fs)[f] == m[f]
    ensures DistinctNames(fs) ==> forall i :: 0 <= i < |fs| ==>
              Synchronised(m, fs)[fs[i].name] ==
                if fs[i].name in m then Edited(m[fs[i].name], fs[i].body) else Created(fs[i].body)
    decreases |fs|
  {
    hide Edited, Created;
    SynchronisedKeys(m, fs);
    if fs != [] && DistinctNames(fs) {
      var f := fs[0];
      var n := m[f.name := if f.name in m then Edited(m[f.name], f.body) else Created(f.body)];
      SynchronisedAt(n, fs[1..]);
      assert f.name !in Names(fs[1..]);
      forall i | 0 <= i < |fs|
        ensures Synchronised(m, fs)[fs[i].name] ==
                if fs[i].name in m then Edited(m[fs[i].name], fs[i].body) else Created(fs[i].body)
      {
        assert i > 0 ==> fs[i] == fs[1..][i - 1];
      }
    }
  }

  lemma {:induction false} SynchronisedKeepsStored(m: map<Name, Tracked>, fs: seq<Entry<AppFunctionBody>>,
                                                   stored: set<Name>)
    requires forall f <- m :: m[f].kept <= stored
    ensures forall f <- Synchronised(m, fs) :: Synchronised(m, fs)[f].kept <= stored
    decreases |fs|
  {
    if fs != [] {
      var f := fs[0];
      if f.name in m {
        AddAllGrows(m[f.name], f.body.permissions);
      }
      SynchronisedKeepsStored(m[f.name := if f.name in m then Edited(m[f.name], f.body) else Created(f.body)],
          fs[1..], stored);
    }
  }

  // ---- the whole declaration ----

  /** The application functions and data policies stored for the application are the declared ones. */
  predicate FunctionsMatch(s: Store, app: Name, fs: seq<Entry<AppFunctionBody>>) {
    && (forall i :: 0 <= i < |fs| ==>
          && fs[i].name in s.appFunctions
          && s.appFunctions[fs[i].name] == AppFunction(app, fs[i].body.description, Names(fs[i].body.permissions)))
    && (forall f <- s.appFunctions :: s.appFunctions[f].application == app ==> f in Names(fs))
  }

  /** They are those declared last under their names. */
  predicate FunctionsEnd(s: Store, app: Name, fs: seq<Entry<AppFunctionBody>>) {
    && (forall f <- Names(fs) ::
          && f in s.appFunctions
          && s.appFunctions[f] == AppFunction(app, Final(fs, f).description, Names(Final(fs, f).permissions)))
    && (forall f <- s.appFunctions :: s.appFunctions[f].application == app ==> f in Names(fs))
  }

  lemma DistinctEndsMatch(s: Store, app: Name, fs: seq<Entry<AppFunctionBody>>)
    requires DistinctNames(fs) && FunctionsEnd(s, app, fs)
    ensures FunctionsMatch(s, app, fs)
  {
    forall i | 0 <= i < |fs|
      ensures fs[i].name in s.appFunctions
      ensures s.appFunctions[fs[i].name] == AppFunction(app, fs[i].body.description, Names(fs[i].body.permissions))
    {
      FinalOfDistinct(fs, i);
    }
  }

  predicate PoliciesEnd(s: Store, app: Name, ps: seq<Entry<Text>>) {
    && (forall p <- Names(ps) :: p in s.dataPolicies && s.dataPolicies[p] == DataPolicy(app, Final(ps, p)))
    && (forall p <- s.dataPolicies :: s.dataPolicies[p].application == app ==> p in Names(ps))
  }

  predicate PoliciesMatch(s: Store, app: Name, ps: seq<Entry<Text>>) {
    && (forall i :: 0 <= i < |ps| ==>
          ps[i].name in s.dataPolicies && s.dataPolicies[ps[i].name] == DataPolicy(app, ps[i].body))
    && (forall p <- s.dataPolicies :: s.dataPolicies[p].application == app ==> p in Names(ps))
  }

  predicate Matches(s: Store, d: ApplicationDecl) {
    && d.name in s.applications
    && FunctionsMatch(s, d.name, d.body.functions)
    && PoliciesMatch(s, d.name, d.body.policies)
  }

  predicate Distinctly(d: ApplicationDecl) {
    DistinctNames(d.body.functions) && DistinctNames(d.body.policies)
  }

  /** Rows of other applications are the same rows in both stores. */
  predicate OthersUntouched(s: Store, t: Store, app: Name) {
    && (forall f <- s.appFunctions :: s.appFunctions[f].application != app ==>
          f in t.appFunctions && t.appFunctions[f] == s.appFunctions[f])
    && (forall f <- t.appFunctions :: t.appFunctions[f].application != app ==>
          f in s.appFunctions && t.appFunctions[f] == s.appFunctions[f])
    && (forall p <- s.dataPolicies :: s.dataPolicies[p].application != app ==>
          p in t.dataPolicies && t.dataPolicies[p] == s.dataPolicies[p])
    && (forall p <- t.dataPolicies :: t.dataPolicies[p].application != app ==>
          p in s.dataPolicies && t.dataPolicies[p] == s.dataPolicies[p])
  }

  lemma {:induction false} PutPoliciesAt(m: map<Name, DataPolicy>, app: Name, ps: seq<Entry<Text>>)
    ensures PutPolicies(m, app, ps).Keys == m.Keys + Names(ps)
    ensures forall p <- PutPolicies(m, app, ps) ::
              PutPolicies(m, app, ps)[p] == if p in Names(ps) then DataPolicy(app, Final(ps, p)) else m[p]
    ensures DistinctNames(ps) ==> forall i :: 0 <= i < |ps| ==>
            PutPolicies(m, app, ps)[ps[i].name] == DataPolicy(app, ps[i].body)
    decreases |ps|
  {
    if ps != [] {
      var n := m[ps[0].name := DataPolicy(app, ps[0].body)];
      PutPoliciesAt(n, app, ps[1..]);
      NamesSplit(ps);
      if DistinctNames(ps) {
        assert ps[0].name !in Names(ps[1..]);
        forall i | 0 <= i < |ps| ensures PutPolicies(m, app, ps)[ps[i].name] == DataPolicy(app, ps[i].body) {
          assert i > 0 ==> ps[i] == ps[1..][i - 1];
        }
      }
    }
  }

  /** The teams are the same ones but for their policies. */
  predicate PoliciesAside(teams: map<Name, Team>, after: map<Name, Team>) {
    after.Keys == teams.Keys && forall x <- teams :: after[x] == teams[x].(policies := after[x].policies)
  }

  lemma PoliciesConverge(s: Store, app: Name, ps: seq<Entry<Text>>)
    ensures PoliciesSynchronised(s, app, ps).Ok? <==>
              forall p <- Names(ps) :: p in s.dataPolicies ==> s.dataPolicies[p].application == app
    ensures PoliciesSynchronised(s, app, ps).Ok? ==>
              var t := PoliciesSynchronised(s, app, ps).value;
              && PoliciesEnd(t, app, ps) && (DistinctNames(ps) ==> PoliciesMatch(t, app, ps))
              && OthersUntouched(s, t, app)
              && t == s.(dataPolicies := t.dataPolicies, teams := t.teams) && PoliciesAside(s.teams, t.teams)
  {
    var t := WithoutPolicies(s, set p | p in s.dataPolicies && PolicyGone(s, app, Names(ps), p));
    PutPoliciesAt(t.dataPolicies, app, ps);
  }

  /** A stored policy stays unless its own application is declared without it, and never changes hands. */
  lemma PolicyStaysIff(s: Store, app: Name, ps: seq<Entry<Text>>, t: Store, p: Name)
    requires PoliciesSynchronised(s, app, ps) == Ok(t) && p in s.dataPolicies
    ensures p in t.dataPolicies <==> (s.dataPolicies[p].application == app ==> p in Names(ps))
    ensures p in t.dataPolicies ==> t.dataPolicies[p].application == s.dataPolicies[p].application
  {
    var gone := set p | p in s.dataPolicies && PolicyGone(s, app, Names(ps), p);
    var kept := WithoutPolicies(s, gone);
    PutPoliciesAt(kept.dataPolicies, app, ps);
    assert p in kept.dataPolicies ==> kept.dataPolicies[p] == s.dataPolicies[p];
  }

  /** The teams lose exactly the policies that are gone. */
  lemma PoliciesLeaveTeams(s: Store, app: Name, ps: seq<Entry<Text>>, t: Store)
    requires PoliciesSynchronised(s, app, ps) == Ok(t)
    requires forall x <- s.teams :: s.teams[x].policies <= s.dataPolicies.Keys
    ensures t.teams.Keys == s.teams.Keys
    ensures forall x <- s.teams :: t.teams[x] == s.teams[x].(policies := s.teams[x].policies * t.dataPolicies.Keys)
  {
    var gone := set p | p in s.dataPolicies && PolicyGone(s, app, Names(ps), p);
    PutPoliciesAt(WithoutPolicies(s, gone).dataPolicies, app, ps);
    forall x <- s.teams ensures s.teams[x].policies - gone == s.teams[x].policies * t.dataPolicies.Keys {
    }
  }

  lemma SavedRows(s: Store, app: Name, m: map<Name, Tracked>, t: Store)
    requires Saved(s, app, m) == Ok(t)
    ensures t == s.(applications := s.applications + {app}, permissions := t.permissions,
                    appFunctions := s.appFunctions + Rows(app, m))
    ensures forall f <- m :: f in s.appFunctions ==> s.appFunctions[f].application == app
  {
  }

  lemma SavedPermissions(s: Store, app: Name, m: map<Name, Tracked>, t: Store)
    requires Saved(s, app, m) == Ok(t)
    ensures !Clash(s.permissions.Keys, m)
    ensures t.permissions == s.permissions + NewPermissions(s.permissions.Keys, m)
  {
  }

  lemma RowsUntouched(s: Store, app: Name, m: map<Name, Tracked>, declared: set<Name>, t: Store)
    requires t.appFunctions == s.appFunctions + Rows(app, m) && t.dataPolicies == s.dataPolicies
    requires forall f <- m :: f in s.appFunctions ==> s.appFunctions[f].application == app
    ensures OthersUntouched(s, WithoutUndeclared(t, app, declared), app)
  {
    assert forall f <- t.appFunctions :: t.appFunctions[f] == if f in m then Rows(app, m)[f] else s.appFunctions[f];
  }

  /** The rows once the application functions are saved and the undeclared ones deleted. */
  lemma SaveConverges(s: Store, app: Name, fs: seq<Entry<AppFunctionBody>>, t: Store)
    requires Saved(s, app, Synchronised(Load(s, app), fs)) == Ok(t)
    ensures FunctionsEnd(WithoutUndeclared(t, app, Names(fs)), app, fs)
    ensures OthersUntouched(s, WithoutUndeclared(t, app, Names(fs)), app)
  {
    hide Saved, Synchronised, Load;
    var m := Synchronised(Load(s, app), fs);
    SavedRows(s, app, m, t);
    RowsUntouched(s, app, m, Names(fs), t);
    forall f <- Names(fs)
      ensures f in t.appFunctions
      ensures t.appFunctions[f] == AppFunction(app, Final(fs, f).description, Names(Final(fs, f).permissions))
    {
      SynchronisedFinally(Load(s, app), fs, f);
      assert t.appFunctions[f] == Rows(app, m)[f];
    }
  }

  /** The data policies are synchronised last and leave the application functions alone. */
  lemma PoliciesFinish(s: Store, t: Store, u: Store, d: ApplicationDecl)
    requires PoliciesSynchronised(t, d.name, d.body.policies) == Ok(u)
    requires d.name in t.applications && t.dataPolicies == s.dataPolicies
    requires FunctionsEnd(t, d.name, d.body.functions) && OthersUntouched(s, t, d.name)
    ensures FunctionsEnd(u, d.name, d.body.functions) && PoliciesEnd(u, d.name, d.body.policies)
    ensures OthersUntouched(s, u, d.name)
    ensures Distinctly(d) ==> Matches(u, d)
  {
    hide PoliciesSynchronised;
    PoliciesConverge(t, d.name, d.body.policies);
    if Distinctly(d) {
      DistinctEndsMatch(u, d.name, d.body.functions);
    }
  }

  lemma NoneUndeclared(t: Store, app: Name, declared: set<Name>)
    requires forall f <- t.appFunctions :: t.appFunctions[f].application == app ==> f in declared
    ensures WithoutUndeclared(t, app, declared) == t
  {
    assert WithoutUndeclared(t, app, declared).appFunctions == t.appFunctions;
  }

  lemma UpdateConverges(s: Store, d: ApplicationDecl, t: Store, u: Store)
    requires Saved(s, d.name, Synchronised(Load(s, d.name), d.body.functions)) == Ok(t)
    requires var w := WithoutOrphans(WithoutUndeclared(t, d.name, Names(d.body.functions)));
             PoliciesSynchronised(w, d.name, d.body.policies) == Ok(u)
    ensures FunctionsEnd(u, d.name, d.body.functions) && PoliciesEnd(u, d.name, d.body.policies)
    ensures OthersUntouched(s, u, d.name)
    ensures Distinctly(d) ==> Matches(u, d)
  {
    hide Saved, Synchronised, PoliciesSynchronised, Distinctly, Matches;
    SaveConverges(s, d.name, d.body.functions, t);
    SavedRows(s, d.name, Synchronised(Load(s, d.name), d.body.functions), t);
    PoliciesFinish(s, WithoutOrphans(WithoutUndeclared(t, d.name, Names(d.body.functions))), u, d);
  }

  lemma CreateConverges(s: Store, d: ApplicationDecl, t: Store, u: Store)
    requires Load(s, d.name) == map[]
    requires Saved(s, d.name, Synchronised(map[], d.body.functions)) == Ok(t)
    requires PoliciesSynchronised(t, d.name, d.body.policies) == Ok(u)
    ensures FunctionsEnd(u, d.name, d.body.functions) && PoliciesEnd(u, d.name, d.body.policies)
    ensures OthersUntouched(s, u, d.name)
    ensures Distinctly(d) ==> Matches(u, d)
  {
    hide Saved, Synchronised, PoliciesSynchronised, Distinctly, Matches;
    var m := Synchronised(map[], d.body.functions);
    SaveConverges(s, d.name, d.body.functions, t);
    SavedRows(s, d.name, m, t);
    SynchronisedAt(map[], d.body.functions);
    NoneUndeclared(t, d.name, Names(d.body.functions));
    PoliciesFinish(s, t, u, d);
  }

  lemma NothingLoaded(s: Store, app: Name)
    requires WellFormed(s) && app !in s.applications
    ensures Load(s, app) == map[]
  {
  }

  /** Convergence: whatever the application held before, it ends with exactly the declared
      application functions, permissions and data policies, of several under one name the last, and
      other applications keep theirs. */
  lemma ApplyConverges(s: Store, d: ApplicationDecl, u: Store)
    requires WellFormed(s) && AfterApply(s, d) == Ok(u)
    ensures FunctionsEnd(u, d.name, d.body.functions) && PoliciesEnd(u, d.name, d.body.policies)
    ensures OthersUntouched(s, u, d.name)
    ensures Distinctly(d) ==> Matches(u, d)
  {
    hide Saved, Synchronised, PoliciesSynchronised, Load, FunctionsEnd, PoliciesEnd, Matches, WithoutOrphans;
    hide WithoutUndeclared;
    if d.name in s.applications {
      UpdateConverges(s, d, Saved(s, d.name, Synchronised(Load(s, d.name), d.body.functions)).value, u);
    } else {
      var r := s.(apiResources := s.apiResources + {d.name});
      NothingLoaded(r, d.name);
      CreateConverges(r, d, Saved(r, d.name, Synchronised(map[], d.body.functions)).value, u);
    }
  }

  // ---- the permissions ----

  /** The entry under which a declaration names a permission. */
  predicate Declares(fs: seq<Entry<AppFunctionBody>>, p: Entry<Text>) {
    exists f <- fs :: p in f.body.permissions
  }

  lemma {:induction false} AddAllFrom(t: Tracked, ps: seq<Entry<Text>>, e: Entry<Text>)
    requires e in AddAll(t, ps).added
    ensures e in t.added || e in ps
    decreases |ps|
  {
    if ps != [] {
      AddAllFrom(AddIfAbsent(t, ps[0]), ps[1..], e);
    }
  }

  lemma WrittenFrom(m: map<Name, Tracked>, f: Entry<AppFunctionBody>, e: Entry<Text>)
    requires e in (if f.name in m then Edited(m[f.name], f.body) else Created(f.body)).added
    ensures (f.name in m && e in m[f.name].added) || e in f.body.permissions
  {
    if f.name in m {
      OnlyNames(AddAll(m[f.name], f.body.permissions).added, Names(f.body.permissions));
      AddAllFrom(m[f.name], f.body.permissions, e);
    }
  }

  lemma {:induction false} AddedIsListed(m: map<Name, Tracked>, fs: seq<Entry<AppFunctionBody>>, g: Name,
                                           e: Entry<Text>)
    requires g in Synchronised(m, fs) && e in Synchronised(m, fs)[g].added
    ensures (g in m && e in m[g].added) || Declares(fs, e)
    decreases |fs|
  {
    if fs != [] {
      hide Edited, Created;
      var f := fs[0];
      var n := m[f.name := if f.name in m then Edited(m[f.name], f.body) else Created(f.body)];
      AddedIsListed(n, fs[1..], g, e);
      if g == f.name && e in n[g].added {
        WrittenFrom(m, f, e);
      }
    }
  }

  lemma SavedFrom(x: Store, app: Name, m: map<Name, Tracked>, fs: seq<Entry<AppFunctionBody>>, t: Store)
    requires Saved(x, app, Synchronised(m, fs)) == Ok(t) && forall f <- m :: m[f].added == []
    ensures forall p <- t.permissions ::
              if p in x.permissions then t.permissions[p] == x.permissions[p]
              else Declares(fs, Entry(p, t.permissions[p]))
  {
    hide Saved, Synchronised, Declares;
    var n := Synchronised(m, fs);
    SavedPermissions(x, app, n, t);
    var added := NewPermissions(x.permissions.Keys, n);
    forall p <- added ensures Declares(fs, Entry(p, added[p])) {
      var f, j :| f in n && 0 <= j < |n[f].added| && n[f].added[j].name == p && n[f].added[j].body == added[p];
      assert n[f].added[j] == Entry(p, added[p]);
      AddedIsListed(m, fs, f, Entry(p, added[p]));
    }
  }

  /** A stored permission keeps its description, and a new one has one that the declaration gives it. */
  lemma AppliedPermissions(x: Store, d: ApplicationDecl, t: Store)
    requires AfterApply(x, d) == Ok(t)
    ensures forall p <- t.permissions ::
              if p in x.permissions then t.permissions[p] == x.permissions[p]
              else Declares(d.body.functions, Entry(p, t.permissions[p]))
  {
    hide Saved, Synchronised, PoliciesSynchronised, Declares;
    var app, fs := d.name, d.body.functions;
    if app in x.applications {
      var u := Saved(x, app, Synchronised(Load(x, app), fs)).value;
      SavedFrom(x, app, Load(x, app), fs, u);
      PoliciesConverge(WithoutOrphans(WithoutUndeclared(u, app, Names(fs))), app, d.body.policies);
    } else {
      var r := x.(apiResources := x.apiResources + {app});
      var u := Saved(r, app, Synchronised(map[], fs)).value;
      SavedFrom(r, app, map[], fs, u);
      PoliciesConverge(u, app, d.body.policies);
    }
  }
}
