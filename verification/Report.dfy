/** When each issue is reported, and what it lists, read off the canvas. */
module Report {
  import opened Wrappers
  import opened Graph
  import opened Traversal
  import opened MergeSwaps
  import opened Cycles
  import opened FirstCycle
  import opened Detection
  import opened ListOrder

  ghost predicate GoesNowhere(edges: seq<Edge>, n: Node) {
    n.kind != Settle && forall e :: e in edges ==> e.src != n.id
  }

  lemma NoSuccessorsIff(edges: seq<Edge>, v: Id)
    ensures Succs(edges, v) == [] <==> forall e :: e in edges ==> e.src != v
  {
    if Succs(edges, v) == [] {
      forall e | e in edges
        ensures e.src != v
      {
        assert e == Edge(e.src, e.dst);
      }
    } else {
      assert Succs(edges, v)[0] in Succs(edges, v);
    }
  }

  /** The dead ends are the nodes other than settle that no edge leaves, in list order. */
  lemma {:induction false} DeadEndsSelect(nodes: seq<Node>, edges: seq<Edge>)
    ensures DeadEnds(nodes, edges) == Ids(Filter(nodes, (n: Node) => GoesNowhere(edges, n)))
  {
    if nodes != [] {
      var front, n := nodes[..|nodes| - 1], nodes[|nodes| - 1];
      var keep := (m: Node) => GoesNowhere(edges, m);
      DeadEndsSelect(front, edges);
      NoSuccessorsIff(edges, n.id);
      IdsAppend(Filter(front, keep), if keep(n) then [n] else []);
      assert Ids(if keep(n) then [n] else []) == if keep(n) then [n.id] else [];
    }
  }

  // ----- the four issues -----

  /** Issues come in one order, each kind at most once. */
  function Place(issue: Issue): nat {
    match issue
    case CycleOutsideRepeat(_) => 0
    case GoNowhere(_) => 1
    case MissingSettle => 2
    case MergeTip(_) => 3
  }

  lemma IssuesAre(nodes: seq<Node>, edges: seq<Edge>, issue: Issue)
    ensures issue in Issues(nodes, edges)
            <==> && nodes != []
                 && (|| issue in CyclePart(nodes, edges) || issue in DeadEndPart(nodes, edges)
                     || issue in SettlePart(nodes) || issue in MergePart(nodes, edges))
  {}

  lemma IssuesInOrder(nodes: seq<Node>, edges: seq<Edge>, i: nat, j: nat)
    requires i < j < |Issues(nodes, edges)|
    ensures Place(Issues(nodes, edges)[i]) < Place(Issues(nodes, edges)[j])
  {}

  /** The cycle error shows the first loop of the graph, if that passes a non-repeat. */
  lemma CycleReportedIff(nodes: seq<Node>, edges: seq<Edge>, c: seq<Id>)
    ensures CycleOutsideRepeat(c) in Issues(nodes, edges)
            <==> FirstLoop(nodes, edges) == Some(c) && exists v :: v in c && !HasKind(nodes, v, Repeat)
  {
    FindCycleIsFirstLoop(nodes, edges);
    CycleErrorIff(nodes, edges);
    IssuesAre(nodes, edges, CycleOutsideRepeat(c));
    if FirstLoop(nodes, edges) == Some(c) && exists v :: v in c && !HasKind(nodes, v, Repeat) {
      assert ReportsCycle(nodes, edges);
    }
  }

  /** "Go nowhere" is reported exactly if some node other than settle has no outgoing edge, and
      lists exactly these in list order. */
  lemma GoNowhereReportedIff(nodes: seq<Node>, edges: seq<Edge>, ids: seq<Id>)
    ensures GoNowhere(ids) in Issues(nodes, edges)
            <==> && (exists n :: n in nodes && GoesNowhere(edges, n))
                 && ids == Ids(Filter(nodes, (n: Node) => GoesNowhere(edges, n)))
  {
    var keep := (n: Node) => GoesNowhere(edges, n);
    var kept := Filter(nodes, keep);
    DeadEndsSelect(nodes, edges);
    IssuesAre(nodes, edges, GoNowhere(ids));
    forall n
      ensures n in kept <==> n in nodes && GoesNowhere(edges, n)
    {
      FilterMembers(nodes, keep, n);
    }
    if kept != [] {
      assert kept[0] in kept;
    }
    assert kept == [] <==> Ids(kept) == [];
  }

  /** The missing settle is reported exactly on a non-empty canvas without a settle. */
  lemma MissingSettleReportedIff(nodes: seq<Node>, edges: seq<Edge>)
    ensures MissingSettle in Issues(nodes, edges) <==> nodes != [] && forall n :: n in nodes ==> n.kind != Settle
  {
    IssuesAre(nodes, edges, MissingSettle);
  }

  /** The merge tip is reported exactly if some edge joins two swaps, and lists exactly these in
      edge order. */
  lemma MergeTipReportedIff(nodes: seq<Node>, edges: seq<Edge>, pairs: seq<Edge>)
    ensures MergeTip(pairs) in Issues(nodes, edges)
            <==> && (exists e :: e in edges && HasKind(nodes, e.src, Swap) && HasKind(nodes, e.dst, Swap))
                 && pairs == Filter(edges, (e: Edge) => HasKind(nodes, e.src, Swap) && HasKind(nodes, e.dst, Swap))
  {
    SwapPairsSelects(nodes, edges);
    IssuesAre(nodes, edges, MergeTip(pairs));
    var swaps := SwapPairs(nodes, edges);
    if swaps != [] {
      assert swaps[0] in swaps;
    }
  }

  // ----- painted edges -----

  /** On distinct ids, an edge is a warning if a borrow node feeds a settle node along it. */
  lemma BorrowToSettleIff(nodes: seq<Node>, e: Edge)
    requires DistinctIds(nodes)
    ensures BorrowToSettle(nodes, e)
            <==> && (exists a :: a in nodes && a.id == e.src && a.kind == Borrow)
                 && (exists b :: b in nodes && b.id == e.dst && b.kind == Settle)
  {
    HasKindIff(nodes, e.src, Borrow);
    HasKindIff(nodes, e.dst, Settle);
  }

  /** The edges painted as errors are the steps of the cycle that the report shows. */
  lemma ErrorEdgeIff(nodes: seq<Node>, edges: seq<Edge>, e: Edge)
    ensures OnReportedCycle(nodes, edges, e)
            <==> exists c :: CycleOutsideRepeat(c) in Issues(nodes, edges) && OnCycle(c, e)
  {
    forall c
      ensures CycleOutsideRepeat(c) in Issues(nodes, edges)
              <==> CyclePart(nodes, edges) != [] && FindCycle(nodes, edges) == Some(c)
    {
      ReportedPart(nodes, edges, c);
    }
  }

  lemma ReportedPart(nodes: seq<Node>, edges: seq<Edge>, c: seq<Id>)
    ensures CycleOutsideRepeat(c) in Issues(nodes, edges)
            <==> CyclePart(nodes, edges) != [] && FindCycle(nodes, edges) == Some(c)
  {
    IssuesAre(nodes, edges, CycleOutsideRepeat(c));
    FindCycleIffCyclic(nodes, edges);
    if CyclePart(nodes, edges) != [] {
      var found := FindCycle(nodes, edges).value;
      assert found[0] in IdSet(nodes);
      assert CyclePart(nodes, edges)[0] == CycleOutsideRepeat(found);
    }
  }
}
