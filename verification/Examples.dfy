/** Small graphs, for any distinct ids, on which the comments in the source promise more
    than the code does. */
module Examples {
  import opened Wrappers
  import opened Graph
  import opened Traversal
  import opened WalkOrder
  import opened Topological
  import opened Ranks
  import opened Cycles
  import opened Detection
  import opened MergeSwaps

  function N(id: Id, kind: Kind): Node {
    Node(id, kind, 0.0, 0.0, map[])
  }

  // ----- the walk: a→c, a→b, b→c -----

  function ShortcutNodes(a: Id, b: Id, c: Id): seq<Node> {
    [N(a, Supply)] + [N(b, Borrow)] + [N(c, Settle)]
  }

  function ShortcutEdges(a: Id, b: Id, c: Id): seq<Edge> {
    [Edge(a, c)] + [Edge(a, b)] + [Edge(b, c)]
  }

  lemma ShortcutSuccs(a: Id, b: Id, c: Id, v: Id)
    requires a != b && a != c && b != c
    ensures Succs(ShortcutEdges(a, b, c), v)
         == (if v == a then [c] + [b] else []) + if v == b then [c] else []
  {
    SuccsAppend([], Edge(a, c), v);
    SuccsAppend([Edge(a, c)], Edge(a, b), v);
    SuccsAppend([Edge(a, c)] + [Edge(a, b)], Edge(b, c), v);
    assert [] + [Edge(a, c)] == [Edge(a, c)];
  }

  lemma ShortcutRoots(a: Id, b: Id, c: Id)
    requires a != b && a != c && b != c
    ensures Roots(ShortcutNodes(a, b, c), ShortcutEdges(a, b, c)) == [a]
  {
    var ns, es := ShortcutNodes(a, b, c), ShortcutEdges(a, b, c);
    assert es[1] == Edge(a, b) && es[2] == Edge(b, c) && es[1] in es && es[2] in es;
    RootsAppend([], ns[0], es);
    RootsAppend([ns[0]], ns[1], es);
    RootsAppend([ns[0]] + [ns[1]], ns[2], es);
    assert [] + [ns[0]] == [ns[0]];
  }

  lemma VisitTurn(es: seq<Edge>, it: Item, rest: seq<Item>, visited: seq<Item>, succs: seq<Id>, queue: seq<Item>)
    requires it.id !in Seen(visited) && Succs(es, it.id) == succs
    requires queue == rest + Expand(succs, it.level + 1)
    ensures Bfs(es, [it] + rest, visited) == Bfs(es, queue, visited + [it])
  {
    assert ([it] + rest)[1..] == rest;
    BfsVisit(es, [it] + rest, visited, queue, visited + [it]);
  }

  lemma ShortcutStart(a: Id, b: Id, c: Id)
    requires a != b && a != c && b != c
    ensures Reached(ShortcutNodes(a, b, c), ShortcutEdges(a, b, c))
         == Bfs(ShortcutEdges(a, b, c), [Item(a, 0)] + [], [])
  {
    ShortcutRoots(a, b, c);
    assert Expand([a], 0) == [Item(a, 0)] + [];
  }

  lemma ShortcutFirst(a: Id, b: Id, c: Id)
    requires a != b && a != c && b != c
    ensures Bfs(ShortcutEdges(a, b, c), [Item(a, 0)] + [], [])
         == Bfs(ShortcutEdges(a, b, c), [Item(c, 1)] + [Item(b, 1)], [Item(a, 0)])
  {
    var es := ShortcutEdges(a, b, c);
    ShortcutSuccs(a, b, c, a);
    var succs := [c] + [b];
    assert Expand(succs, 1) == [Item(c, 1)] + [Item(b, 1)];
    VisitTurn(es, Item(a, 0), [], [], succs, [] + Expand(succs, 1));
    assert [] + Expand(succs, 1) == [Item(c, 1)] + [Item(b, 1)];
    assert [] + [Item(a, 0)] == [Item(a, 0)];
  }

  lemma ShortcutSecond(a: Id, b: Id, c: Id)
    requires a != b && a != c && b != c
    ensures Bfs(ShortcutEdges(a, b, c), [Item(c, 1)] + [Item(b, 1)], [Item(a, 0)])
         == Bfs(ShortcutEdges(a, b, c), [Item(b, 1)], [Item(a, 0), Item(c, 1)])
  {
    ShortcutSuccs(a, b, c, c);
    VisitTurn(ShortcutEdges(a, b, c), Item(c, 1), [Item(b, 1)], [Item(a, 0)], [], [Item(b, 1)]);
    assert [Item(a, 0)] + [Item(c, 1)] == [Item(a, 0), Item(c, 1)];
  }

  lemma ShortcutThird(a: Id, b: Id, c: Id)
    requires a != b && a != c && b != c
    ensures Bfs(ShortcutEdges(a, b, c), [Item(b, 1)], [Item(a, 0), Item(c, 1)])
         == [Item(a, 0), Item(c, 1), Item(b, 1)]
  {
    ShortcutSuccs(a, b, c, b);
    VisitTurn(ShortcutEdges(a, b, c), Item(b, 1), [], [Item(a, 0), Item(c, 1)], [c], [Item(c, 2)]);
    assert [Item(b, 1)] + [] == [Item(b, 1)];
    assert [Item(a, 0), Item(c, 1)] + [Item(b, 1)] == [Item(a, 0), Item(c, 1), Item(b, 1)];
    SkipLast(ShortcutEdges(a, b, c), Item(c, 2), [Item(a, 0), Item(c, 1), Item(b, 1)], 1);
  }

  lemma SkipLast(es: seq<Edge>, it: Item, visited: seq<Item>, k: nat)
    requires k < |visited| && visited[k].id == it.id
    ensures Bfs(es, [it], visited) == visited
  {
    assert visited[k] in visited;
    BfsSkip(es, [it], visited);
  }

  lemma ShortcutReached(a: Id, b: Id, c: Id)
    requires a != b && a != c && b != c
    ensures ItemIds(Reached(ShortcutNodes(a, b, c), ShortcutEdges(a, b, c))) == [a, c, b]
  {
    ShortcutStart(a, b, c);
    ShortcutFirst(a, b, c);
    ShortcutSecond(a, b, c);
    ShortcutThird(a, b, c);
  }

  lemma ShortcutIsClosed(a: Id, b: Id, c: Id)
    ensures IdSet(ShortcutNodes(a, b, c)) == {a, b, c}
    ensures Closed(ShortcutNodes(a, b, c), ShortcutEdges(a, b, c))
  {
    var ns := ShortcutNodes(a, b, c);
    assert ns[0] in ns && ns[1] in ns && ns[2] in ns;
  }

  /** The "topo walk" visits c before b although b feeds c and the graph has no cycle. */
  lemma WalkIsNotTopological(a: Id, b: Id, c: Id)
    requires a != b && a != c && b != c
    ensures Order(ShortcutNodes(a, b, c), ShortcutEdges(a, b, c)) == [a, c, b]
    ensures Edge(b, c) in ShortcutEdges(a, b, c)
    ensures !HasCycle(ShortcutEdges(a, b, c), {a, b, c})
  {
    ShortcutReached(a, b, c);
    ShortcutAcyclic(a, b, c);
    ShortcutIsClosed(a, b, c);
    FindCycleIffCyclic(ShortcutNodes(a, b, c), ShortcutEdges(a, b, c));
    AcyclicOrderNeedsNoFallback(ShortcutNodes(a, b, c), ShortcutEdges(a, b, c));
  }

  lemma ShortcutAcyclic(a: Id, b: Id, c: Id)
    requires a != b && a != c && b != c
    ensures Edge(b, c) in ShortcutEdges(a, b, c)
    ensures !HasCycle(ShortcutEdges(a, b, c), {a, b, c})
  {
    var es := ShortcutEdges(a, b, c);
    NumberingRulesOutCycles(es, {a, b, c}, v => if v == a then 0 else if v == b then 1 else 2);
    assert es[2] == Edge(b, c);
  }

  // ----- the walk: r→c beside the cycle a→b→a with b→c -----

  function StrayNodes(r: Id, c: Id, a: Id, b: Id): seq<Node> {
    [N(r, Supply), N(c, Settle), N(a, Borrow), N(b, Swap)]
  }

  function StrayEdges(r: Id, c: Id, a: Id, b: Id): seq<Edge> {
    [Edge(r, c), Edge(a, b), Edge(b, a), Edge(b, c)]
  }

  lemma StrayIsClosed(r: Id, c: Id, a: Id, b: Id)
    ensures Closed(StrayNodes(r, c, a, b), StrayEdges(r, c, a, b))
    ensures IdSet(StrayNodes(r, c, a, b)) == {r, c, a, b}
  {
    var ns := StrayNodes(r, c, a, b);
    assert ns[0] in ns && ns[1] in ns && ns[2] in ns && ns[3] in ns;
  }

  lemma StrayRoots(r: Id, c: Id, a: Id, b: Id)
    requires Distinct([r, c, a, b])
    ensures RootSet(StrayNodes(r, c, a, b), StrayEdges(r, c, a, b)) == {r}
  {
    var ns, es := StrayNodes(r, c, a, b), StrayEdges(r, c, a, b);
    var ids := [r, c, a, b];
    assert ids[0] == r && ids[1] == c && ids[2] == a && ids[3] == b;
    assert es[0] in es && es[1] in es && es[2] in es;
    StrayIsClosed(r, c, a, b);
    assert InDegree(es, r) == 0;
  }

  lemma StrayWalk(r: Id, c: Id, a: Id, b: Id, v: Id, n: nat)
    requires Distinct([r, c, a, b])
    requires WalkTo(StrayEdges(r, c, a, b), {r}, v, n)
    ensures n <= 1 && v == if n == 0 then r else c
    decreases n
  {
    var ids := [r, c, a, b];
    assert ids[0] == r && ids[1] == c && ids[2] == a && ids[3] == b;
    if n > 0 {
      var u :| Edge(u, v) in StrayEdges(r, c, a, b) && WalkTo(StrayEdges(r, c, a, b), {r}, u, n - 1);
      StrayWalk(r, c, a, b, u, n - 1);
    }
  }

  lemma StrayIsLevelled(r: Id, c: Id, a: Id, b: Id)
    requires Distinct([r, c, a, b])
    ensures Levelled(StrayEdges(r, c, a, b), {r})
  {
    var es := StrayEdges(r, c, a, b);
    var ids := [r, c, a, b];
    assert ids[0] == r && ids[1] == c && ids[2] == a && ids[3] == b;
    assert es[0] in es;
    forall u, w, d: nat | Edge(u, w) in es && Distance(es, {r}, u, d)
      ensures Distance(es, {r}, w, d + 1)
    {
      StrayWalk(r, c, a, b, u, d);
      WalkStep(es, {r}, u, w, d);
      forall k: nat | WalkTo(es, {r}, w, k)
        ensures d + 1 <= k
      {
        StrayWalk(r, c, a, b, w, k);
      }
    }
  }

  /** A cycle out of reach is visited last, so its edge b→c runs back although every edge out
      of a reachable vertex raises the distance by one. */
  lemma StrayCycleRunsBack(r: Id, c: Id, a: Id, b: Id)
    requires Distinct([r, c, a, b])
    ensures var ns, es := StrayNodes(r, c, a, b), StrayEdges(r, c, a, b);
            && Closed(ns, es) && Levelled(es, RootSet(ns, es)) && ReachedAdvances(ns, es)
            && !IsTopological(es, Order(ns, es))
  {
    var ns, es := StrayNodes(r, c, a, b), StrayEdges(r, c, a, b);
    StrayIsClosed(r, c, a, b);
    StrayRoots(r, c, a, b);
    StrayIsLevelled(r, c, a, b);
    LevelledIffAdvances(ns, es);
    ClosedTopologicalIff(ns, es);
    assert ns[2] in ns && ns[2].id == a;
    assert [r, c, a, b][0] == r && [r, c, a, b][1] == c && [r, c, a, b][2] == a;
    if n: nat :| WalkTo(es, {r}, a, n) {
      StrayWalk(r, c, a, b, a, n);
    }
  }

  // ----- the rank: a→b→c→d with the shortcut a→c -----

  function LadderNodes(a: Id, b: Id, c: Id, d: Id): seq<Node> {
    [N(a, Supply)] + [N(b, Borrow)] + [N(c, Swap)] + [N(d, Settle)]
  }

  function LadderEdges(a: Id, b: Id, c: Id, d: Id): seq<Edge> {
    [Edge(a, b), Edge(b, c), Edge(c, d), Edge(a, c)]
  }

  lemma LadderRoots(a: Id, b: Id, c: Id, d: Id)
    requires Distinct([a, b, c, d])
    ensures RootSet(LadderNodes(a, b, c, d), LadderEdges(a, b, c, d)) == {a}
  {
    var ns, es := LadderNodes(a, b, c, d), LadderEdges(a, b, c, d);
    assert [a, b, c, d][0] == a && [a, b, c, d][1] == b && [a, b, c, d][2] == c && [a, b, c, d][3] == d;
    assert es[0] in es && es[1] in es && es[2] in es;
    assert InDegree(es, a) == 0;
    forall v | v in IdSet(ns)
      ensures v in {a, b, c, d}
    {}
    assert N(a, Supply) == ns[0] && ns[0] in ns;
  }

  lemma LadderDistances(a: Id, b: Id, c: Id, d: Id)
    requires Distinct([a, b, c, d])
    ensures var es := LadderEdges(a, b, c, d);
            Distance(es, {a}, a, 0) && Distance(es, {a}, b, 1) && Distance(es, {a}, c, 1)
  {
    var es := LadderEdges(a, b, c, d);
    assert [a, b, c, d][0] == a && [a, b, c, d][1] == b && [a, b, c, d][2] == c;
    assert es[0] == Edge(a, b) && es[3] == Edge(a, c) && es[0] in es && es[3] in es;
    assert WalkTo(es, {a}, a, 0);
    WalkStep(es, {a}, a, b, 0);
    WalkStep(es, {a}, a, c, 0);
  }

  /** Columns c and d coincide although c feeds d, so the rank of d is not its longest path. */
  lemma RankIsNotLongestPath(a: Id, b: Id, c: Id, d: Id)
    requires Distinct([a, b, c, d])
    ensures var ns, es := LadderNodes(a, b, c, d), LadderEdges(a, b, c, d);
            && Rank(ns, es, c) == Rank(ns, es, d) == 2
            && WalkTo(es, RootSet(ns, es), d, 3)
  {
    var ns, es := LadderNodes(a, b, c, d), LadderEdges(a, b, c, d);
    LadderRoots(a, b, c, d);
    LadderDistances(a, b, c, d);
    LadderRank(ns, es, c, 1);
    LadderRank(ns, es, d, 1);
    assert [a, b, c, d][0] == a && [a, b, c, d][1] == b && [a, b, c, d][2] == c && [a, b, c, d][3] == d;
    assert es[0] == Edge(a, b) && es[1] == Edge(b, c) && es[2] == Edge(c, d);
    assert es[0] in es && es[1] in es && es[2] in es;
    WalkStep(es, {a}, b, c, 1);
    WalkStep(es, {a}, c, d, 2);
  }

  lemma LadderRank(ns: seq<Node>, es: seq<Edge>, w: Id, top: nat)
    requires exists u :: Edge(u, w) in es && Distance(es, RootSet(ns, es), u, top)
    requires forall u :: Edge(u, w) in es ==> exists k: nat :: k <= top && Distance(es, RootSet(ns, es), u, k)
    ensures Rank(ns, es, w) == top + 1
  {
    RankByDistance(ns, es, w);
    var r := Rank(ns, es, w);
    var q :| Edge(q, w) in es && Distance(es, RootSet(ns, es), q, top);
    var u :| Edge(u, w) in es && Distance(es, RootSet(ns, es), u, r - 1);
    var k: nat :| k <= top && Distance(es, RootSet(ns, es), u, k);
    DistanceUnique(es, RootSet(ns, es), u, k, r - 1);
  }

  // ----- the detector: a repeat on itself, then a cycle of two other nodes -----

  function LoopNodes(r: Id, a: Id, b: Id): seq<Node> {
    [N(r, Repeat), N(a, Supply), N(b, Borrow)]
  }

  function LoopEdges(r: Id, a: Id, b: Id): seq<Edge> {
    [Edge(r, r), Edge(a, b), Edge(b, a)]
  }

  lemma LoopHasMixedCycle(r: Id, a: Id, b: Id)
    requires r != a && r != b && a != b
    ensures HasMixedCycle(LoopNodes(r, a, b), LoopEdges(r, a, b))
  {
    var ns, es := LoopNodes(r, a, b), LoopEdges(r, a, b);
    assert es[1] in es && es[2] in es;
    assert ns[1] in ns && ns[2] in ns;
    var c := [a, b, a];
    assert Hop(es, c, 1) && Hop(es, c, 2);
    assert c[0] in c && !OnlyRepeat(ns, c) by {
      assert FindNode(ns[1..], a) == Some(ns[1]);
    }
    assert IsClosedWalk(es, IdSet(ns), c);
  }

  lemma LoopFoundFirst(r: Id, a: Id, b: Id)
    requires r != a && r != b && a != b
    ensures FindCycle(LoopNodes(r, a, b), LoopEdges(r, a, b)) == Some([r] + [r])
  {
    var ns, es := LoopNodes(r, a, b), LoopEdges(r, a, b);
    assert es[0] in es && ns[0] in ns;
    var succs := Succs(es, r);
    assert Edge(r, r) in es;
    assert r in succs && forall w :: w in succs ==> w == r;
    assert succs[0] == r by {
      assert succs[0] in succs;
    }
    assert Scan(es, succs, [r], AllWhite(ns)[r := Grey]).cycle == Some([r] + [r]);
  }

  /** Only the first cycle found is tested: the repeat's own loop hides the cycle a→b→a. */
  lemma RepeatLoopHidesCycle(r: Id, a: Id, b: Id)
    requires r != a && r != b && a != b
    ensures HasMixedCycle(LoopNodes(r, a, b), LoopEdges(r, a, b))
    ensures !ReportsCycle(LoopNodes(r, a, b), LoopEdges(r, a, b))
  {
    LoopHasMixedCycle(r, a, b);
    LoopFoundFirst(r, a, b);
    ReportsCycleIff(LoopNodes(r, a, b), LoopEdges(r, a, b));
  }

  // ----- the layout: a balanced diamond -----

  function DiamondNodes(a: Id, b: Id, c: Id, d: Id): seq<Node> {
    [N(a, Supply), N(b, Borrow), N(c, Swap), N(d, Settle)]
  }

  function DiamondEdges(a: Id, b: Id, c: Id, d: Id): seq<Edge> {
    [Edge(a, b), Edge(a, c), Edge(b, d), Edge(c, d)]
  }

  /** A balanced diamond is levelled, so its ranks are its longest paths. */
  lemma DiamondIsLevelled(a: Id, b: Id, c: Id, d: Id)
    requires Distinct([a, b, c, d])
    ensures Levelled(DiamondEdges(a, b, c, d), RootSet(DiamondNodes(a, b, c, d), DiamondEdges(a, b, c, d)))
  {
    var ns, es := DiamondNodes(a, b, c, d), DiamondEdges(a, b, c, d);
    assert [a, b, c, d][0] == a && [a, b, c, d][1] == b && [a, b, c, d][2] == c && [a, b, c, d][3] == d;
    assert es[0] in es && es[1] in es && es[2] in es;
    forall v | v in RootSet(ns, es)
      ensures v == a
    {
      assert v in IdSet(ns) && v in {a, b, c, d};
    }
    GradedIsLevelled(es, RootSet(ns, es), v => if v == a then 0 else if v == d then 2 else 1);
  }

  // ----- the merge: s→b, a→b, b→d with swaps a and b -----

  function FedNodes(s: Id, a: Id, b: Id, d: Id): seq<Node> {
    [N(s, Supply), N(a, Swap), N(b, Swap), N(d, Settle)]
  }

  function FedEdgeList(s: Id, a: Id, b: Id, d: Id): seq<Edge> {
    [Edge(s, b), Edge(a, b), Edge(b, d)]
  }

  lemma FedKinds(s: Id, a: Id, b: Id, d: Id)
    requires Distinct([s, a, b, d])
    ensures forall v :: HasKind(FedNodes(s, a, b, d), v, Swap) <==> v == a || v == b
  {
    var ns := FedNodes(s, a, b, d);
    assert [s, a, b, d][0] == s && [s, a, b, d][1] == a && [s, a, b, d][2] == b && [s, a, b, d][3] == d;
    assert ns[1..] == [N(a, Swap), N(b, Swap), N(d, Settle)];
    assert ns[1..][1..] == [N(b, Swap), N(d, Settle)];
    assert ns[1..][1..][1..] == [N(d, Settle)];
  }

  lemma {:induction false} NoWayOut(es: seq<Edge>, u: Id, v: Id, n: nat)
    requires n > 0 && forall e :: e in es ==> e.src != u
    ensures !WalkTo(es, {u}, v, n)
    decreases n
  {
    forall w | Edge(w, v) in es
      ensures !WalkTo(es, {u}, w, n - 1)
    {
      assert Edge(w, v).src == w;
      if n > 1 {
        NoWayOut(es, u, w, n - 1);
      }
    }
  }

  lemma FedPairs(s: Id, a: Id, b: Id, d: Id)
    requires Distinct([s, a, b, d])
    ensures forall p :: p in SwapPairs(FedNodes(s, a, b, d), FedEdgeList(s, a, b, d)) <==> p == Edge(a, b)
  {
    var ns, es := FedNodes(s, a, b, d), FedEdgeList(s, a, b, d);
    assert [s, a, b, d][0] == s && [s, a, b, d][1] == a && [s, a, b, d][2] == b && [s, a, b, d][3] == d;
    FedKinds(s, a, b, d);
    assert es[1] in es;
    forall p
      ensures p in es && HasKind(ns, p.src, Swap) && HasKind(ns, p.dst, Swap) <==> p == Edge(a, b)
    {}
  }

  lemma FedRemoved(s: Id, a: Id, b: Id, d: Id)
    requires Distinct([s, a, b, d])
    ensures Seconds(SwapPairs(FedNodes(s, a, b, d), FedEdgeList(s, a, b, d))) == {b}
  {
    var pairs := SwapPairs(FedNodes(s, a, b, d), FedEdgeList(s, a, b, d));
    FedPairs(s, a, b, d);
    assert Edge(a, b) in pairs && Edge(a, b).dst == b;
  }

  lemma FedLeavesNot(s: Id, a: Id, b: Id, d: Id)
    requires Distinct([s, a, b, d])
    ensures forall e :: e in FedEdges(FedNodes(s, a, b, d), FedEdgeList(s, a, b, d), {b}) ==> e.src != s
  {
    assert [s, a, b, d][0] == s && [s, a, b, d][1] == a && [s, a, b, d][2] == b && [s, a, b, d][3] == d;
    FedKinds(s, a, b, d);
  }

  /** The supply s loses its way to d: its edge enters the removed swap b and is handed to nobody. */
  lemma MergeLosesWay(s: Id, a: Id, b: Id, d: Id)
    requires Distinct([s, a, b, d])
    ensures var ns, es := FedNodes(s, a, b, d), FedEdgeList(s, a, b, d);
            && NoSwapChain(ns, es) && !Bypassed(ns, es)
            && Leads(es, s, d) && !Leads(MergedEdges(ns, es), s, d)
  {
    var ns, es := FedNodes(s, a, b, d), FedEdgeList(s, a, b, d);
    assert [s, a, b, d][0] == s && [s, a, b, d][1] == a && [s, a, b, d][2] == b && [s, a, b, d][3] == d;
    FedKinds(s, a, b, d);
    FedPairs(s, a, b, d);
    FedRemoved(s, a, b, d);
    FedLeavesNot(s, a, b, d);
    assert Edge(s, b) == es[0] && es[0] in es && Edge(b, d) == es[2] && es[2] in es;
    forall n: nat | n > 0
      ensures !WalkTo(Fed(ns, es), {s}, d, n)
    {
      NoWayOut(Fed(ns, es), s, d, n);
    }
    assert !Leads(Fed(ns, es), s, d);
    LosesWay(ns, es, s, b, d);
  }
}
