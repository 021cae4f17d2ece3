/** Parent-to-child graphs of roles and of teams. */
module Graphs {
  import opened Entries

  type Graph = map<Name, set<Name>>

  predicate Edge(g: Graph, a: Name, b: Name) {
    a in g && b in g[a]
  }

  ghost predicate Path(g: Graph, p: seq<Name>) {
    p != [] && forall i :: 0 <= i < |p| - 1 ==> Edge(g, p[i], p[i + 1])
  }

  /** `b` can be reached from `a` in any number of steps, none included. */
  ghost predicate Reaches(g: Graph, a: Name, b: Name) {
    exists p :: Path(g, p) && p[0] == a && p[|p| - 1] == b
  }

  ghost predicate Cycle(g: Graph, p: seq<Name>) {
    Path(g, p) && p[0] == p[|p| - 1]
  }

  /** No cycle goes through two or more distinct nodes. */
  ghost predicate NoLongCycle(g: Graph) {
    forall p, i :: Cycle(g, p) && 0 <= i < |p| ==> p[i] == p[0]
  }

  /** Every child of a node is a leaf. */
  predicate OneLevel(g: Graph) {
    forall a <- g, b <- g[a] :: b in g ==> g[b] == {}
  }

  /** What every caller of a child assignment has checked: the children other than the node itself
      are leaves. */
  predicate Assignable(g: Graph, node: Name, children: set<Name>) {
    forall c <- children :: c == node || c !in g || g[c] == {}
  }

  /** Every child is a node. */
  predicate Closed(g: Graph) {
    forall a <- g :: g[a] <= g.Keys
  }

  predicate NobodysChild(g: Graph, node: Name) {
    forall a <- g :: node !in g[a]
  }

  lemma {:induction false} StaysAtSelfLoop(g: Graph, p: seq<Name>, r: Name, i: nat, j: nat)
    requires Path(g, p) && i <= j < |p| && p[i] == r
    requires forall k :: 0 <= k < |p| - 1 && p[k] == r ==> p[k + 1] == r
    ensures p[j] == r
    decreases j - i
  {
    if i < j {
      StaysAtSelfLoop(g, p, r, i + 1, j);
    }
  }

  lemma CycleNodeHasChild(g: Graph, p: seq<Name>, k: nat)
    requires Cycle(g, p) && k < |p| && |p| > 1
    ensures p[k] in g && g[p[k]] != {}
  {
    var i := if k < |p| - 1 then k else 0;
    assert Edge(g, p[i], p[i + 1]);
  }

  /** Giving a node leaf children closes no cycle through two nodes. */
  lemma {:induction false} AssignmentClosesNoCycle(g: Graph, node: Name, children: set<Name>)
    requires NoLongCycle(g) && Assignable(g, node, children)
    ensures NoLongCycle(g[node := children])
  {
    var h := g[node := children];
    forall p, i | Cycle(h, p) && 0 <= i < |p| ensures p[i] == p[0] {
      if k :| 0 <= k < |p| - 1 && p[k] == node && p[k + 1] != node {
        assert Edge(h, p[k], p[k + 1]);
        CycleNodeHasChild(h, p, k + 1);
        assert false;
      } else if k :| 0 <= k < |p| && p[k] == node {
        StaysAtSelfLoop(h, p, node, k, |p| - 1);
        StaysAtSelfLoop(h, p, node, 0, i);
      } else {
        forall k | 0 <= k < |p| - 1 ensures Edge(g, p[k], p[k + 1]) {
          assert Edge(h, p[k], p[k + 1]);
        }
        assert Cycle(g, p);
      }
    }
  }

  /** An accepted assignment keeps a one-level graph one-level exactly when the node gets no children,
      or is nobody's child and not its own. */
  lemma AssignmentKeepsOneLevelIff(g: Graph, node: Name, children: set<Name>)
    requires OneLevel(g) && Assignable(g, node, children)
    ensures OneLevel(g[node := children]) <==> children == {} || (NobodysChild(g, node) && node !in children)
  {
    var h := g[node := children];
    if children != {} && node in children {
      assert node in h[node] && h[node] != {};
    } else if children != {} && !NobodysChild(g, node) {
      var a :| a in g && node in g[a];
      assert (a == node || node in h[a]) && h[node] != {};
    }
    if children == {} || (NobodysChild(g, node) && node !in children) {
      forall a <- h, b <- h[a] | b in h ensures h[b] == {} {
        if a != node && b == node { assert node in g[a]; }
      }
    }
  }

  // ---- many assignments, one after the other ----

  type ChildLists = seq<Entry<seq<Name>>>

  function Overwritten(g: Graph, ls: ChildLists): Graph
    decreases |ls|
  {
    if ls == [] then g else Overwritten(g[ls[0].name := Elements(ls[0].body)], ls[1..])
  }

  /** Every list names leaves only, when its turn comes. */
  predicate ListsLeaves(g: Graph, ls: ChildLists)
    decreases |ls|
  {
    || ls == []
    || ((forall c <- ls[0].body :: c in g && g[c] == {}) && ListsLeaves(g[ls[0].name := Elements(ls[0].body)], ls[1..]))
  }

  /** No node that is left with listed children is a child of any node in the end. */
  predicate CompoundIsNoChild(g: Graph, ls: ChildLists) {
    forall d <- Names(ls) :: Final(ls, d) != [] ==>
      (forall a <- g :: a in Names(ls) || d !in g[a]) && (forall a <- Names(ls) :: d !in Final(ls, a))
  }

  lemma {:induction false} OverwrittenAt(g: Graph, ls: ChildLists)
    ensures Overwritten(g, ls).Keys == g.Keys + Names(ls)
    ensures forall a <- g :: a !in Names(ls) ==> Overwritten(g, ls)[a] == g[a]
    ensures forall a <- Names(ls) :: Overwritten(g, ls)[a] == Elements(Final(ls, a))
    decreases |ls|
  {
    if ls != [] {
      NamesSplit(ls);
      OverwrittenAt(g[ls[0].name := Elements(ls[0].body)], ls[1..]);
    }
  }

  lemma {:induction false} OverwrittenAppend(g: Graph, xs: ChildLists, ys: ChildLists)
    ensures Overwritten(g, xs + ys) == Overwritten(Overwritten(g, xs), ys)
    ensures ListsLeaves(g, xs) && ListsLeaves(Overwritten(g, xs), ys) ==> ListsLeaves(g, xs + ys)
    decreases |xs|
  {
    if xs == [] {
      assert xs + ys == ys;
    } else {
      assert (xs + ys)[1..] == xs[1..] + ys;
      OverwrittenAppend(g[xs[0].name := Elements(xs[0].body)], xs[1..], ys);
    }
  }

  /** Lists of leaves close no cycle. */
  lemma {:induction false} OverwrittenKeeps(g: Graph, ls: ChildLists)
    requires ListsLeaves(g, ls) && Closed(g)
    ensures Closed(Overwritten(g, ls)) && (NoLongCycle(g) ==> NoLongCycle(Overwritten(g, ls)))
    decreases |ls|
  {
    if ls != [] {
      hide NoLongCycle;
      if NoLongCycle(g) {
        AssignmentClosesNoCycle(g, ls[0].name, Elements(ls[0].body));
      }
      OverwrittenKeeps(g[ls[0].name := Elements(ls[0].body)], ls[1..]);
    }
  }

  lemma {:induction false} UnlistedChildIsLeaf(g: Graph, ls: ChildLists, a: Name, c: Name)
    requires ListsLeaves(g, ls) && a in Names(ls) && c in Final(ls, a) && c !in Names(ls)
    ensures c in g && g[c] == {}
    decreases |ls|
  {
    NamesSplit(ls);
    if a in Names(ls[1..]) {
      UnlistedChildIsLeaf(g[ls[0].name := Elements(ls[0].body)], ls[1..], a, c);
    }
  }

  /** Lists of leaves keep a one-level graph one-level exactly when no node that they leave with
      children is a child in the end. */
  lemma OverwrittenKeepsOneLevelIff(g: Graph, ls: ChildLists)
    requires OneLevel(g) && ListsLeaves(g, ls)
    ensures OneLevel(Overwritten(g, ls)) <==> CompoundIsNoChild(g, ls)
  {
    hide Overwritten, ListsLeaves, Final;
    var h := Overwritten(g, ls);
    OverwrittenAt(g, ls);
    if OneLevel(h) {
      forall d <- Names(ls) | Final(ls, d) != []
        ensures forall a <- g :: a in Names(ls) || d !in g[a]
        ensures forall a <- Names(ls) :: d !in Final(ls, a)
      {
        NoElements(Final(ls, d));
        assert forall a <- h :: d !in h[a];
        assert forall a <- Names(ls) :: h[a] == Elements(Final(ls, a));
      }
    }
    if CompoundIsNoChild(g, ls) {
      forall a <- h, b <- h[a] | b in h ensures h[b] == {} {
        if b in Names(ls) {
          NoElements(Final(ls, b));
          assert a in Names(ls) ==> b in Final(ls, a);
        } else if a in Names(ls) {
          UnlistedChildIsLeaf(g, ls, a, b);
        }
      }
    }
  }

  // ---- renaming ----

  function Renamed(x: Name, from: Name, to: Name): Name {
    if x == from then to else x
  }

  function RenameIn(xs: set<Name>, from: Name, to: Name): set<Name> {
    set x | x in xs :: Renamed(x, from, to)
  }

  lemma RenameToItself(xs: set<Name>, x: Name)
    ensures RenameIn(xs, x, x) == xs
  {
  }

  /** The new name stands where the old one stood, and nothing else changes. */
  lemma RenameInIff(xs: set<Name>, from: Name, to: Name, x: Name)
    ensures x in RenameIn(xs, from, to) <==> (x == to && from in xs) || (x != from && x in xs)
  {
    if x == to && from in xs {
      assert Renamed(from, from, to) == x;
    } else if x != from && x in xs {
      assert Renamed(x, from, to) == x;
    }
  }

  lemma RenameInNothing(xs: set<Name>, from: Name, to: Name)
    ensures RenameIn(xs, from, to) == {} <==> xs == {}
  {
    if x :| x in xs {
      assert Renamed(x, from, to) in RenameIn(xs, from, to);
    }
  }

  function RenameNode(g: Graph, from: Name, to: Name): Graph
    requires from in g
  {
    map x | x in g.Keys - {from} + {to} :: RenameIn(g[Renamed(x, to, from)], from, to)
  }

  lemma RenameKeepsClosed(g: Graph, from: Name, to: Name)
    requires from in g && to !in g && Closed(g)
    ensures Closed(RenameNode(g, from, to))
  {
    var h := RenameNode(g, from, to);
    forall a <- h, c <- h[a] ensures c in h {
      assert g[Renamed(a, to, from)] <= g.Keys;
    }
  }

  /** Renaming a node to a fresh name keeps both shapes. */
  lemma RenameKeepsNoLongCycle(g: Graph, from: Name, to: Name)
    requires from in g && to !in g && Closed(g)
    requires NoLongCycle(g)
    ensures NoLongCycle(RenameNode(g, from, to))
  {
    var h := RenameNode(g, from, to);
    forall p, i | Cycle(h, p) && 0 <= i < |p| ensures p[i] == p[0] {
      var q := seq(|p|, k requires 0 <= k < |p| => Renamed(p[k], to, from));
      forall k | 0 <= k < |p| - 1 ensures Edge(g, q[k], q[k + 1]) {
        assert Edge(h, p[k], p[k + 1]);
      }
      assert Cycle(g, q) && q[i] == q[0];
      if |p| > 1 {
        CycleNodeHasChild(h, p, i);
        CycleNodeHasChild(h, p, 0);
      }
    }
  }

  lemma RenameKeepsOneLevel(g: Graph, from: Name, to: Name)
    requires from in g && to !in g && Closed(g)
    requires OneLevel(g)
    ensures OneLevel(RenameNode(g, from, to))
  {
    var h := RenameNode(g, from, to);
    forall a <- h, b <- h[a] | b in h ensures h[b] == {} {
      var a0, b0 := Renamed(a, to, from), Renamed(b, to, from);
      assert b0 in g[a0];
    }
  }
}
