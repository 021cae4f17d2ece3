/** Applying a security contract under the two transactions its repositories share. */
module Transactions {
  import opened Results
  import opened Model
  import opened SecurityContract

  /** The two contexts: the authorisation database, and the identity server's configuration, of
      which the model keeps the API resources. */
  datatype Context = A3s | Ids

  datatype Event = Began(context: Context) | Committed(context: Context) | RolledBack(context: Context)

  /** The tables of `working` that belong to `context`, over those of `base`. */
  function Overlay(base: Store, working: Store, context: Context): Store {
    match context
    case A3s => working.(apiResources := base.apiResources)
    case Ids => base.(apiResources := working.apiResources)
  }

  // The repositories of each service, in the order in which it opens, commits and rolls back.
  const APPLICATION_REPOSITORIES: seq<Context> := [A3s, Ids, A3s, A3s, A3s]
  const DEFAULT_REPOSITORIES: seq<Context> := [A3s, A3s, A3s, A3s, A3s, A3s, A3s]
  const CLIENT_REPOSITORIES: seq<Context> := [Ids]
  const REPOSITORIES := APPLICATION_REPOSITORIES + DEFAULT_REPOSITORIES + CLIENT_REPOSITORIES

  class UnitOfWork {
    const db: A3SContext
    var durable: Store
    var open: set<Context>
    ghost var log: seq<Event>

    constructor (db: A3SContext)
      ensures this.db == db && durable == db.State() && open == {} && log == []
    {
      this.db := db;
      durable, open, log := db.State(), {}, [];
    }

    method SetState(s: Store)
      modifies db
      ensures db.State() == s
    {
      db.applications, db.apiResources, db.appFunctions := s.applications, s.apiResources, s.appFunctions;
      db.permissions, db.dataPolicies, db.functions := s.permissions, s.dataPolicies, s.functions;
      db.roles, db.users, db.teams := s.roles, s.users, s.teams;
    }

    /** One repository: begins a transaction unless its context already has one. */
    method InitSharedTransaction(context: Context)
      modifies this`open, this`log
      ensures open == old(open) + {context}
      ensures log == old(log) + if context in old(open) then [] else [Began(context)]
    {
      if context !in open {
        open, log := open + {context}, log + [Began(context)];
      }
    }

    /** One repository: commits the transaction of its context, if there still is one. A commit that
        fails leaves the transaction open. */
    method CommitTransaction(context: Context, failing: set<Context>) returns (r: Outcome)
      modifies this`open, this`log, this`durable
      ensures r.Pass? <==> context !in old(open) || context !in failing
      ensures r.Fail? ==> r == Fail(CommitFailed("")) && open == old(open) && log == old(log) && durable == old(durable)
      ensures r.Pass? ==>
                && open == old(open) - {context}
                && log == old(log) + (if context in old(open) then [Committed(context)] else [])
                && durable == if context in old(open) then Overlay(old(durable), db.State(), context) else old(durable)
    {
      if context in open {
        if context in failing {
          return Fail(CommitFailed(""));
        }
        durable, open, log := Overlay(durable, db.State(), context), open - {context}, log + [Committed(context)];
      }
      r := Pass;
    }

    /** One repository: rolls the transaction of its context back, if there still is one. */
    method RollbackTransaction(context: Context)
      modifies this`open, this`log, db
      ensures open == old(open) - {context}
      ensures log == old(log) + if context in old(open) then [RolledBack(context)] else []
      ensures db.State() == if context in old(open) then Overlay(old(db.State()), durable, context) else old(db.State())
    {
      if context in open {
        SetState(Overlay(db.State(), durable, context));
        open, log := open - {context}, log + [RolledBack(context)];
      }
    }

    method BeginAll()
      requires open == {}
      modifies this`open, this`log
      ensures open == {A3s, Ids} && log == old(log) + [Began(A3s), Began(Ids)]
    {
      for i := 0 to |REPOSITORIES|
        invariant open == if i == 0 then {} else if i == 1 then {A3s} else {A3s, Ids}
        invariant log == old(log) + if i == 0 then [] else if i == 1 then [Began(A3s)] else [Began(A3s), Began(Ids)]
      {
        InitSharedTransaction(REPOSITORIES[i]);
      }
    }

    /** The store that is durable when committing `working` under the given failures. */
    static function Published(base: Store, working: Store, failing: set<Context>): Store {
      if A3s in failing then base
      else if Ids in failing then Overlay(base, working, A3s)
      else working
    }

    method CommitAll(failing: set<Context>) returns (r: Outcome)
      requires open == {A3s, Ids}
      modifies this`open, this`log, this`durable
      ensures r == if failing == {} then Pass else Fail(CommitFailed(""))
      ensures durable == Published(old(durable), db.State(), failing)
      ensures open == if failing == {} then {} else if A3s in failing then {A3s, Ids} else {Ids}
      ensures log == old(log) + if failing == {} then [Committed(A3s), Committed(Ids)]
                                else if A3s in failing then [] else [Committed(A3s)]
    {
      ghost var before := durable;
      for i := 0 to |REPOSITORIES|
        invariant open == if i == 0 then {A3s, Ids} else if i == 1 then {Ids} else {}
        invariant log == old(log) + if i == 0 then [] else if i == 1 then [Committed(A3s)]
                                  else [Committed(A3s), Committed(Ids)]
        invariant durable == if i == 0 then before else if i == 1 then Overlay(before, db.State(), A3s) else db.State()
        invariant i >= 1 ==> A3s !in failing
        invariant i >= 2 ==> Ids !in failing
      {
        r := CommitTransaction(REPOSITORIES[i], failing);
        if r.Fail? {
          return;
        }
      }
      OnlyTwo(failing);
      r := Pass;
    }

    method RollbackAll()
      modifies this`open, this`log, db
      ensures open == {}
      ensures log == old(log) + ((if A3s in old(open) then [RolledBack(A3s)] else [])
              + (if Ids in old(open) then [RolledBack(Ids)] else []))
      ensures db.State() ==
                var s := if A3s in old(open) then Overlay(old(db.State()), durable, A3s) else old(db.State());
                if Ids in old(open) then Overlay(s, durable, Ids) else s
    {
      ghost var s0 := db.State();
      ghost var s1 := if A3s in open then Overlay(s0, durable, A3s) else s0;
      ghost var s2 := if Ids in open then Overlay(s1, durable, Ids) else s1;
      ghost var held := open;
      ghost var a, b := if A3s in open then [RolledBack(A3s)] else [], if Ids in open then [RolledBack(Ids)] else [];
      for i := 0 to |REPOSITORIES|
        invariant open == if i == 0 then held else if i == 1 then held - {A3s} else held - {A3s, Ids}
        invariant log == old(log) + if i == 0 then [] else if i == 1 then a else a + b
        invariant db.State() == if i == 0 then s0 else if i == 1 then s1 else s2
      {
        RollbackTransaction(REPOSITORIES[i]);
      }
      OnlyTwo(held);
    }

    static lemma OnlyTwo(contexts: set<Context>)
      ensures contexts <= {A3s, Ids}
      ensures contexts == {} || contexts == {A3s} || contexts == {Ids} || contexts == {A3s, Ids}
    {
      forall c <- contexts ensures c in {A3s, Ids} {
        assert c.A3s? || c.Ids?;
      }
    }

    method ApplyBody(c: Contract) returns (r: Outcome)
      modifies db
      ensures Realises(r, db.State(), AfterContract(old(db.State()), c))
    {
      ghost var s := db.State();
      for i := 0 to |c.applications|
        invariant AfterResourceServers(s, c.applications) == AfterResourceServers(db.State(), c.applications[i..])
      {
        :- SecurityContractApplication.Apply(db, c.applications[i]);
      }
      ghost var t := db.State();
      for i := 0 to |c.defaults|
        invariant AfterDefaultList(t, c.defaults) == AfterDefaultList(db.State(), c.defaults[i..])
      {
        :- SecurityContractDefaultConfiguration.Apply(db, c.defaults[i]);
      }
      r := Pass;
    }

    /** Commits when the body succeeded, and rolls back when it, or a commit, failed. */
    method Finish(body: Outcome, failing: set<Context>) returns (r: Outcome)
      requires open == {A3s, Ids}
      modifies this`open, this`log, this`durable, db
      ensures open == {} && db.State() == durable
      ensures r == if body.Fail? then body else if failing == {} then Pass else Fail(CommitFailed(""))
      ensures durable == if body.Fail? then old(durable) else Published(old(durable), old(db.State()), failing)
      ensures log == old(log) +
                if body.Fail? || A3s in failing then [RolledBack(A3s), RolledBack(Ids)]
                else [Committed(A3s), if Ids in failing then RolledBack(Ids) else Committed(Ids)]
    {
      OnlyTwo(failing);
      r := body;
      if r.Pass? {
        r := CommitAll(failing);
      }
      if r.Fail? {
        RollbackAll();
      }
      assert old(log) + [Committed(A3s)] + [RolledBack(Ids)] == old(log) + [Committed(A3s), RolledBack(Ids)];
    }

    /** All or nothing: a contract that fails leaves both databases as they were, one that succeeds
        publishes both, and either way each context sees one begin and one end. The one exception is
        an identity server that fails to commit after the authorisation database has committed. */
    method ApplySecurityContract(c: Contract, failing: set<Context>) returns (r: Outcome)
      requires open == {} && db.State() == durable
      modifies this`open, this`log, this`durable, db
      ensures open == {} && db.State() == durable
      ensures match AfterContract(old(durable), c)
              case Err(e) => r == Fail(e) && durable == old(durable)
              case Ok(t) =>
                && r == (if failing == {} then Pass else Fail(CommitFailed("")))
                && durable == Published(old(durable), t, failing)
      ensures log == old(log) + [Began(A3s), Began(Ids)] +
                if AfterContract(old(durable), c).Err? || A3s in failing then [RolledBack(A3s), RolledBack(Ids)]
                else [Committed(A3s), if Ids in failing then RolledBack(Ids) else Committed(Ids)]
    {
      ghost var spec := AfterContract(durable, c);
      BeginAll();
      r := ApplyBody(c);
      assert Realises(r, db.State(), spec);
      r := Finish(r, failing);
    }

    /** Nothing in between is ever durable, exactly when the identity server does not fail alone or
        its part of the contract is empty or all of it. */
    static lemma AllOrNothingIff(base: Store, t: Store, failing: set<Context>)
      ensures Published(base, t, failing) == base || Published(base, t, failing) == t <==>
                failing != {Ids} || t.apiResources == base.apiResources || t == base.(apiResources := t.apiResources)
    {
      OnlyTwo(failing);
    }
  }
}
