/** Named entries of a declaration list, and lists read as sets. */
module Entries {

  type Name = string
  type Text = string

  /** One element of a declarative list: a name and what is declared under it. */
  datatype Entry<+T> = Entry(name: Name, body: T)

  function Elements<T(==)>(xs: seq<T>): set<T> {
    set x | x in xs
  }

  function Names<T(==)>(xs: seq<Entry<T>>): set<Name> {
    set x | x in xs :: x.name
  }

  predicate DistinctNames<T>(xs: seq<Entry<T>>) {
    forall i, j :: 0 <= i < j < |xs| ==> xs[i].name != xs[j].name
  }

  predicate Distinct<T(==)>(xs: seq<T>) {
    forall i, j :: 0 <= i < j < |xs| ==> xs[i] != xs[j]
  }

  lemma DistinctAppend<T>(xs: seq<T>, x: T)
    ensures Distinct(xs + [x]) <==> Distinct(xs) && x !in xs
  {
    var ys := xs + [x];
    assert forall i :: 0 <= i < |xs| ==> ys[i] == xs[i];
    assert ys[|xs|] == x;
  }

  lemma NamesAppend<T>(xs: seq<Entry<T>>, x: Entry<T>)
    ensures Names(xs + [x]) == Names(xs) + {x.name}
  {
    assert forall i :: 0 <= i < |xs| ==> (xs + [x])[i] == xs[i];
    assert (xs + [x])[|xs|] == x;
  }

  lemma NamesSplit<T>(xs: seq<Entry<T>>)
    requires xs != []
    ensures Names(xs) == {xs[0].name} + Names(xs[1..])
  {
    assert forall i :: 1 <= i < |xs| ==> xs[i] == xs[1..][i - 1];
  }

  lemma DistinctSplit<T>(xs: seq<Entry<T>>)
    requires xs != []
    ensures DistinctNames(xs) <==> DistinctNames(xs[1..]) && xs[0].name !in Names(xs[1..])
  {
    var rest := xs[1..];
    assert forall i :: 0 <= i < |rest| ==> xs[i + 1] == rest[i];
    if DistinctNames(rest) && xs[0].name !in Names(rest) {
      forall i, j | 0 <= i < j < |xs| ensures xs[i].name != xs[j].name {
        assert xs[j] == rest[j - 1] && xs[j].name in Names(rest);
      }
    }
  }

  /** What the last entry under a name declares. */
  function Final<T(==)>(xs: seq<Entry<T>>, name: Name): T
    requires name in Names(xs)
    decreases |xs|
  {
    NamesSplit(xs);
    if name in Names(xs[1..]) then Final(xs[1..], name) else xs[0].body
  }

  lemma {:induction false} FinalOfDistinct<T>(xs: seq<Entry<T>>, i: nat)
    requires DistinctNames(xs) && i < |xs|
    ensures xs[i].name in Names(xs) && Final(xs, xs[i].name) == xs[i].body
    decreases |xs|
  {
    DistinctSplit(xs);
    if i > 0 {
      FinalOfDistinct(xs[1..], i - 1);
    }
  }

  lemma NoElements<T>(xs: seq<T>)
    ensures Elements(xs) == {} <==> xs == []
  {
    assert xs != [] ==> xs[0] in Elements(xs);
  }

  lemma SameNameSameEntry<T>(xs: seq<Entry<T>>)
    requires DistinctNames(xs)
    ensures forall x <- xs, y <- xs :: x.name == y.name ==> x == y
  {
  }

  /** Entries made one by one from distinct rows. */
  lemma NamedInOrder<T>(rows: seq<Name>, xs: seq<Entry<T>>)
    requires Distinct(rows) && |xs| == |rows| && forall k :: 0 <= k < |xs| ==> xs[k].name == rows[k]
    ensures DistinctNames(xs) && Names(xs) == Elements(rows)
  {
    forall r <- rows ensures r in Names(xs) {
      var k :| 0 <= k < |rows| && rows[k] == r;
      assert xs[k] in xs;
    }
  }

  /** The rows of a table, in whatever order the database returns them. */
  method Listing<T(==)>(s: set<T>) returns (xs: seq<T>)
    ensures Elements(xs) == s && Distinct(xs)
    ensures forall i :: 0 <= i < |xs| ==> xs[i] in s
  {
    xs := [];
    var rest := s;
    while rest != {}
      invariant rest <= s && Elements(xs) == s - rest && Distinct(xs)
      decreases rest
    {
      var x :| x in rest;
      assert Elements(xs + [x]) == Elements(xs) + {x};
      xs, rest := xs + [x], rest - {x};
    }
  }
}
