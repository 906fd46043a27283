/** The ranks of `organizeLayout`: the column each node is drawn in. */
module Ranks {
  import opened Graph
  import opened Traversal
  import opened WalkOrder

  function Max(a: nat, b: nat): nat {
    if a < b then b else a
  }

  /** 1 + the highest level among the visited predecessors of `w`; 0 when there is none. */
  function RankFrom(edges: seq<Edge>, visited: seq<Item>, w: Id): nat {
    if visited == [] then 0
    else
      var u := visited[|visited| - 1];
      var r := RankFrom(edges, visited[..|visited| - 1], w);
      if Edge(u.id, w) in edges then Max(r, u.level + 1) else r
  }

  lemma {:induction false} RankFromIsMaximum(edges: seq<Edge>, visited: seq<Item>, w: Id)
    ensures forall u :: u in visited && Edge(u.id, w) in edges ==> u.level + 1 <= RankFrom(edges, visited, w)
    ensures RankFrom(edges, visited, w) > 0 ==>
              exists u :: u in visited && Edge(u.id, w) in edges && u.level + 1 == RankFrom(edges, visited, w)
  {
    if visited != [] {
      var u, rest := visited[|visited| - 1], visited[..|visited| - 1];
      assert visited == rest + [u];
      RankFromIsMaximum(edges, rest, w);
    }
  }

  function Rank(nodes: seq<Node>, edges: seq<Edge>, w: Id): nat {
    RankFrom(edges, Reached(nodes, edges), w)
  }

  /** The rank is one more than the largest shortest distance of a reachable predecessor,
      and 0 for a vertex without one: in particular for roots and unreachable nodes. */
  lemma RankByDistance(nodes: seq<Node>, edges: seq<Edge>, w: Id)
    ensures forall u, d: nat ::
              Edge(u, w) in edges && Distance(edges, RootSet(nodes, edges), u, d) ==> d < Rank(nodes, edges, w)
    ensures Rank(nodes, edges, w) > 0 ==>
              exists u :: Edge(u, w) in edges
                          && Distance(edges, RootSet(nodes, edges), u, Rank(nodes, edges, w) - 1)
  {
    var r, roots := Rank(nodes, edges, w), RootSet(nodes, edges);
    RankFromIsMaximum(edges, Reached(nodes, edges), w);
    forall u, d: nat | Edge(u, w) in edges && Distance(edges, roots, u, d)
      ensures d < r
    {
      var i := PositionOf(nodes, edges, u, d);
    }
    if r > 0 {
      var u :| u in Reached(nodes, edges) && Edge(u.id, w) in edges && u.level + 1 == r;
      ReachedByDistance(nodes, edges);
    }
  }

  lemma RankZeroIff(nodes: seq<Node>, edges: seq<Edge>, w: Id)
    ensures Rank(nodes, edges, w) == 0
            <==> w in RootSet(nodes, edges) || !Reachable(edges, RootSet(nodes, edges), w)
  {
    var r, roots := Rank(nodes, edges, w), RootSet(nodes, edges);
    RankByDistance(nodes, edges, w);
    if r > 0 {
      var u :| Edge(u, w) in edges && Distance(edges, roots, u, r - 1);
      WalkStep(edges, roots, u, w, r - 1);
    } else if Reachable(edges, roots, w) && w !in roots {
      var n: nat :| WalkTo(edges, roots, w, n);
      var u :| Edge(u, w) in edges && WalkTo(edges, roots, u, n - 1);
      var d := HasDistance(edges, roots, u, n - 1);
    }
  }

  // ----- when the rank is the longest path, as the comment in the source says -----

  ghost predicate LongestWalk(edges: seq<Edge>, roots: set<Id>, v: Id, n: nat) {
    WalkTo(edges, roots, v, n) && forall k: nat :: WalkTo(edges, roots, v, k) ==> k <= n
  }

  /** Some predecessor of `w` is farther from the roots than every predecessor of `u`. */
  ghost predicate Ascends(edges: seq<Edge>, roots: set<Id>, u: Id, w: Id) {
    exists q, d: nat ::
      && Edge(q, w) in edges && Distance(edges, roots, q, d)
      && forall p, c: nat :: Edge(p, u) in edges && Distance(edges, roots, p, c) ==> c < d
  }

  lemma AscendsIffRanksRise(nodes: seq<Node>, edges: seq<Edge>, u: Id, w: Id)
    requires Edge(u, w) in edges && Reachable(edges, RootSet(nodes, edges), u)
    ensures (u in RootSet(nodes, edges) || Ascends(edges, RootSet(nodes, edges), u, w))
            <==> Rank(nodes, edges, u) < Rank(nodes, edges, w)
  {
    var roots := RootSet(nodes, edges);
    var a, b := Rank(nodes, edges, u), Rank(nodes, edges, w);
    RankByDistance(nodes, edges, u);
    RankByDistance(nodes, edges, w);
    RankZeroIff(nodes, edges, u);
    var n: nat :| WalkTo(edges, roots, u, n);
    var d := HasDistance(edges, roots, u, n);
    if a < b {
      var q :| Edge(q, w) in edges && Distance(edges, roots, q, b - 1);
      forall p, c: nat | Edge(p, u) in edges && Distance(edges, roots, p, c)
        ensures c < b - 1
      {}
      assert Ascends(edges, roots, u, w);
    }
    if Ascends(edges, roots, u, w) && a > 0 {
      var p :| Edge(p, u) in edges && Distance(edges, roots, p, a - 1);
    }
  }

  /** A labelling that every edge raises bounds the length of every walk. */
  lemma {:induction false} RiseBoundsWalks(edges: seq<Edge>, roots: set<Id>, rank: Id -> nat, v: Id, n: nat)
    requires forall u, w :: Edge(u, w) in edges && Reachable(edges, roots, u) ==> rank(u) < rank(w)
    requires WalkTo(edges, roots, v, n)
    ensures n <= rank(v)
    decreases n
  {
    if n > 0 {
      var u :| Edge(u, v) in edges && WalkTo(edges, roots, u, n - 1);
      RiseBoundsWalks(edges, roots, rank, u, n - 1);
    }
  }

  /** The rank is the length of a longest walk from the roots, for every reachable vertex,
      exactly when each edge out of a reachable non-root ascends. */
  lemma RankIsLongestIff(nodes: seq<Node>, edges: seq<Edge>)
    ensures (forall v :: Reachable(edges, RootSet(nodes, edges), v)
                         ==> LongestWalk(edges, RootSet(nodes, edges), v, Rank(nodes, edges, v)))
            <==>
            (forall u, w :: Edge(u, w) in edges && Reachable(edges, RootSet(nodes, edges), u)
                            ==> u in RootSet(nodes, edges) || Ascends(edges, RootSet(nodes, edges), u, w))
  {
    var roots := RootSet(nodes, edges);
    forall u, w | Edge(u, w) in edges && Reachable(edges, roots, u)
      ensures (u in roots || Ascends(edges, roots, u, w)) <==> Rank(nodes, edges, u) < Rank(nodes, edges, w)
    {
      AscendsIffRanksRise(nodes, edges, u, w);
    }
    if forall v :: Reachable(edges, roots, v) ==> LongestWalk(edges, roots, v, Rank(nodes, edges, v)) {
      forall u, w | Edge(u, w) in edges && Reachable(edges, roots, u)
        ensures Rank(nodes, edges, u) < Rank(nodes, edges, w)
      {
        WalkStep(edges, roots, u, w, Rank(nodes, edges, u));
        assert Reachable(edges, roots, w);
      }
    }
    if forall u, w :: Edge(u, w) in edges && Reachable(edges, roots, u)
                      ==> Rank(nodes, edges, u) < Rank(nodes, edges, w) {
      forall v | Reachable(edges, roots, v)
        ensures LongestWalk(edges, roots, v, Rank(nodes, edges, v))
      {
        RankIsWalk(nodes, edges, v);
        forall n: nat | WalkTo(edges, roots, v, n)
          ensures n <= Rank(nodes, edges, v)
        {
          RiseBoundsWalks(edges, roots, w => Rank(nodes, edges, w), v, n);
        }
      }
    }
  }

  lemma RankIsWalk(nodes: seq<Node>, edges: seq<Edge>, v: Id)
    requires Reachable(edges, RootSet(nodes, edges), v)
    ensures WalkTo(edges, RootSet(nodes, edges), v, Rank(nodes, edges, v))
  {
    RankByDistance(nodes, edges, v);
    RankZeroIff(nodes, edges, v);
    WalkBack(edges, RootSet(nodes, edges), v, Rank(nodes, edges, v));
  }

  lemma WalkBack(edges: seq<Edge>, roots: set<Id>, v: Id, n: nat)
    requires n == 0 ==> v in roots
    requires n > 0 ==> exists u :: Edge(u, v) in edges && Distance(edges, roots, u, n - 1)
    ensures WalkTo(edges, roots, v, n)
  {
    if n > 0 {
      var u :| Edge(u, v) in edges && Distance(edges, roots, u, n - 1);
      assert WalkTo(edges, roots, u, n - 1);
    }
  }

  /** Where every edge raises the distance by one, the rank is the distance and the longest walk. */
  lemma LevelledRank(nodes: seq<Node>, edges: seq<Edge>, v: Id, d: nat)
    requires Levelled(edges, RootSet(nodes, edges))
    requires Distance(edges, RootSet(nodes, edges), v, d)
    ensures Rank(nodes, edges, v) == d
    ensures LongestWalk(edges, RootSet(nodes, edges), v, d)
  {
    var roots := RootSet(nodes, edges);
    LevelledDistance(nodes, edges, v, d);
    assert Reachable(edges, roots, v);
    RankByDistance(nodes, edges, v);
    RankZeroIff(nodes, edges, v);
    var r := Rank(nodes, edges, v);
    if r > 0 {
      var u :| Edge(u, v) in edges && Distance(edges, roots, u, r - 1);
      assert Distance(edges, roots, v, r - 1 + 1);
    } else {
      assert WalkTo(edges, roots, v, 0);
    }
  }

  lemma LevelledDistance(nodes: seq<Node>, edges: seq<Edge>, v: Id, d: nat)
    requires Levelled(edges, RootSet(nodes, edges))
    requires Distance(edges, RootSet(nodes, edges), v, d)
    ensures forall n: nat :: WalkTo(edges, RootSet(nodes, edges), v, n) ==> n == d
  {
    forall n: nat | WalkTo(edges, RootSet(nodes, edges), v, n)
      ensures n == d
    {
      LevelledWalk(edges, RootSet(nodes, edges), v, n);
      DistanceUnique(edges, RootSet(nodes, edges), v, n, d);
    }
  }

  lemma {:induction false} LevelledWalk(edges: seq<Edge>, roots: set<Id>, v: Id, n: nat)
    requires Levelled(edges, roots) && WalkTo(edges, roots, v, n)
    ensures Distance(edges, roots, v, n)
    decreases n
  {
    if n > 0 {
      var u :| Edge(u, v) in edges && WalkTo(edges, roots, u, n - 1);
      LevelledWalk(edges, roots, u, n - 1);
      assert Distance(edges, roots, v, n - 1 + 1);
    }
  }
}
