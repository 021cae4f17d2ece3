/** The loops with which the services turn a list of names into association rows. */
module Assignments {
  import opened Results
  import opened Entries
  import opened Graphs

  function OptionalNames(names: Option<seq<Name>>): seq<Name> {
    if names.Some? then names.value else []
  }

  /** Looks every name up and stops at the first that is missing. */
  function CheckPresent(table: set<Name>, names: seq<Name>): (o: Outcome)
    ensures o.Pass? <==> Elements(names) <= table
    ensures o.Fail? ==> o.error.NotFound? && o.error.item in names && o.error.item !in table
  {
    if names == [] then Pass
    else if names[0] !in table then Fail(NotFound(names[0]))
    else
      assert Elements(names) == {names[0]} + Elements(names[1..]);
      CheckPresent(table, names[1..])
  }

  /** Looks every child up and stops at the first that is missing or has children of its own. */
  function CheckLeaves(g: Graph, names: seq<Name>): (o: Outcome)
    ensures o.Pass? <==> forall n <- names :: n in g && g[n] == {}
    ensures o.Fail? ==> o.error.item in names
    ensures o.Fail? ==> o.error == (if o.error.item in g then NotProcessable(o.error.item) else NotFound(o.error.item))
    ensures o.Fail? ==> o.error.item in g ==> g[o.error.item] != {}
  {
    if names == [] then Pass
    else if names[0] !in g then Fail(NotFound(names[0]))
    else if g[names[0]] != {} then Fail(NotProcessable(names[0]))
    else
      assert forall n :: n in names <==> n == names[0] || n in names[1..];
      CheckLeaves(g, names[1..])
  }

  /** The first name that is missing is the one reported. */
  lemma {:induction false} FirstMissing(table: set<Name>, names: seq<Name>, i: nat)
    requires i < |names| && names[i] !in table && Elements(names[..i]) <= table
    ensures CheckPresent(table, names) == Fail(NotFound(names[i]))
    decreases i
  {
    if i > 0 {
      assert names[..i][0] in Elements(names[..i]);
      assert names[..i][1..] == names[1..][..i - 1];
      assert Elements(names[1..][..i - 1]) <= Elements(names[..i]);
      FirstMissing(table, names[1..], i - 1);
    }
  }

  /** So is the first that is missing or has children. */
  lemma {:induction false} FirstNoLeaf(g: Graph, names: seq<Name>, i: nat)
    requires i < |names| && (names[i] in g ==> g[names[i]] != {})
    requires forall j :: 0 <= j < i ==> names[j] in g && g[names[j]] == {}
    ensures CheckLeaves(g, names) ==
            Fail(if names[i] in g then NotProcessable(names[i]) else NotFound(names[i]))
    decreases i
  {
    if i > 0 {
      FirstNoLeaf(g, names[1..], i - 1);
    }
  }

  /** The two ends of an association row are its key: a list that names a row twice is refused when
      it is saved, after everything else has been checked. */
  function CheckKeys(owner: Name, names: seq<Name>): (o: Outcome)
    ensures o.Pass? <==> Distinct(names)
    ensures o.Fail? ==> o.error == Conflict(owner)
  {
    if Distinct(names) then Pass else Fail(Conflict(owner))
  }

  method AssignPresent(table: set<Name>, names: seq<Name>) returns (r: Outcome, rows: seq<Name>)
    ensures r == CheckPresent(table, names)
    ensures r.Pass? ==> rows == names
  {
    rows := [];
    for i := 0 to |names|
      invariant rows == names[..i]
      invariant CheckPresent(table, names) == CheckPresent(table, names[i..])
    {
      if names[i] !in table {
        return Fail(NotFound(names[i])), rows;
      }
      rows := rows + [names[i]];
    }
    return Pass, rows;
  }

  method AssignLeaves(g: Graph, names: seq<Name>) returns (r: Outcome, rows: seq<Name>)
    ensures r == CheckLeaves(g, names)
    ensures r.Pass? ==> rows == names
  {
    rows := [];
    for i := 0 to |names|
      invariant rows == names[..i]
      invariant CheckLeaves(g, names) == CheckLeaves(g, names[i..])
    {
      if names[i] !in g {
        return Fail(NotFound(names[i])), rows;
      }
      if g[names[i]] != {} {
        return Fail(NotProcessable(names[i])), rows;
      }
      rows := rows + [names[i]];
    }
    return Pass, rows;
  }
}
