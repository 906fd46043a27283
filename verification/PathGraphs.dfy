/** Every analysis of the builder on a simple path of steps: the shape the AI planner emits. */
module PathGraphs {
  import opened Graph
  import opened Traversal
  import opened WalkOrder
  import opened Ranks
  import opened Cycles
  import opened Detection
  import opened AiCompile

  ghost predicate IsPath(nodes: seq<Node>, edges: seq<Edge>) {
    nodes != [] && DistinctIds(nodes) && edges == Chain(Ids(nodes))
  }

  lemma PathEdge(nodes: seq<Node>, edges: seq<Edge>, e: Edge) returns (i: nat)
    requires IsPath(nodes, edges) && e in edges
    ensures i < |nodes| - 1 && e == Edge(nodes[i].id, nodes[i + 1].id)
  {
    i :| 0 <= i < |edges| && edges[i] == e;
  }

  lemma PathHasEdge(nodes: seq<Node>, edges: seq<Edge>, i: nat)
    requires IsPath(nodes, edges) && i < |nodes| - 1
    ensures Edge(nodes[i].id, nodes[i + 1].id) in edges
  {
    assert edges[i] in edges;
  }

  lemma PathIsClosed(nodes: seq<Node>, edges: seq<Edge>)
    requires IsPath(nodes, edges)
    ensures Closed(nodes, edges)
  {
    forall e | e in edges
      ensures e.src in IdSet(nodes) && e.dst in IdSet(nodes)
    {
      var i := PathEdge(nodes, edges, e);
      assert nodes[i] in nodes && nodes[i + 1] in nodes;
    }
  }

  lemma PathRoots(nodes: seq<Node>, edges: seq<Edge>)
    requires IsPath(nodes, edges)
    ensures RootSet(nodes, edges) == {nodes[0].id}
  {
    forall v | v in RootSet(nodes, edges)
      ensures v == nodes[0].id
    {
      var n :| n in nodes && n.id == v;
      var i :| 0 <= i < |nodes| && nodes[i] == n;
      if i > 0 {
        PathHasEdge(nodes, edges, i - 1);
      }
    }
    assert nodes[0] in nodes;
    forall e | e in edges
      ensures e.dst != nodes[0].id
    {
      var i := PathEdge(nodes, edges, e);
    }
  }

  /** On a path, the only walk from the start to the i-th node has i edges. */
  lemma {:induction false} PathWalk(nodes: seq<Node>, edges: seq<Edge>, v: Id, n: nat)
    requires IsPath(nodes, edges)
    requires WalkTo(edges, {nodes[0].id}, v, n)
    ensures n < |nodes| && v == nodes[n].id
    decreases n
  {
    if n > 0 {
      var u :| Edge(u, v) in edges && WalkTo(edges, {nodes[0].id}, u, n - 1);
      PathWalk(nodes, edges, u, n - 1);
      var i := PathEdge(nodes, edges, Edge(u, v));
    }
  }

  lemma {:induction false} PathWalkExists(nodes: seq<Node>, edges: seq<Edge>, i: nat)
    requires IsPath(nodes, edges) && i < |nodes|
    ensures WalkTo(edges, {nodes[0].id}, nodes[i].id, i)
    decreases i
  {
    if i > 0 {
      PathWalkExists(nodes, edges, i - 1);
      PathHasEdge(nodes, edges, i - 1);
      WalkStep(edges, {nodes[0].id}, nodes[i - 1].id, nodes[i].id, i - 1);
    }
  }

  lemma PathDistance(nodes: seq<Node>, edges: seq<Edge>, i: nat)
    requires IsPath(nodes, edges) && i < |nodes|
    ensures Distance(edges, RootSet(nodes, edges), nodes[i].id, i)
  {
    PathRoots(nodes, edges);
    PathWalkExists(nodes, edges, i);
    forall n: nat | WalkTo(edges, {nodes[0].id}, nodes[i].id, n)
      ensures n == i
    {
      PathWalk(nodes, edges, nodes[i].id, n);
    }
  }

  lemma ReachedOnPath(nodes: seq<Node>, edges: seq<Edge>, it: Item)
    requires IsPath(nodes, edges) && it in Reached(nodes, edges)
    ensures it.level < |nodes| && it.id == nodes[it.level].id
  {
    ReachedByDistance(nodes, edges);
    PathRoots(nodes, edges);
    PathWalk(nodes, edges, it.id, it.level);
  }

  ghost predicate RisingLevels(items: seq<Item>) {
    forall i, j :: 0 <= i < j < |items| ==> items[i].level < items[j].level
  }

  lemma PathLevelsRise(nodes: seq<Node>, edges: seq<Edge>)
    requires IsPath(nodes, edges)
    ensures RisingLevels(Reached(nodes, edges))
  {
    var r := Reached(nodes, edges);
    ReachedByDistance(nodes, edges);
    forall i, j | 0 <= i < j < |r|
      ensures r[i].level < r[j].level
    {
      ReachedOnPath(nodes, edges, r[i]);
      ReachedOnPath(nodes, edges, r[j]);
    }
  }

  /** Rising levels that miss nothing below `n` are the positions themselves. */
  lemma {:induction false} LevelsArePositions(items: seq<Item>, n: nat, k: nat)
    requires RisingLevels(items) && k < n
    requires forall i: nat {:trigger HasLevel(items, i)} :: i < n ==> HasLevel(items, i)
    ensures k < |items| && items[k].level == k
    decreases k
  {
    assert HasLevel(items, k);
    var j :| 0 <= j < |items| && items[j].level == k;
    if k > 0 {
      LevelsArePositions(items, n, k - 1);
    }
    if k < j {
      assert items[k].level < items[j].level;
    }
  }

  ghost predicate HasLevel(items: seq<Item>, n: nat) {
    exists j :: 0 <= j < |items| && items[j].level == n
  }

  /** The traversal of a path lists the nodes in path order. */
  lemma PathReached(nodes: seq<Node>, edges: seq<Edge>)
    requires IsPath(nodes, edges)
    ensures ItemIds(Reached(nodes, edges)) == Ids(nodes)
  {
    var r := Reached(nodes, edges);
    PathLevelsRise(nodes, edges);
    forall i: nat | i < |nodes|
      ensures HasLevel(r, i)
    {
      PathDistance(nodes, edges, i);
      var j := PositionOf(nodes, edges, nodes[i].id, i);
    }
    forall k: nat | k < |nodes|
      ensures k < |r| && r[k].level == k && r[k].id == nodes[k].id
    {
      LevelsArePositions(r, |nodes|, k);
      ReachedOnPath(nodes, edges, r[k]);
    }
    if |r| > |nodes| {
      ReachedOnPath(nodes, edges, r[|nodes|]);
    }
  }

  lemma PathHasNoCycle(nodes: seq<Node>, edges: seq<Edge>)
    requires IsPath(nodes, edges)
    ensures FindCycle(nodes, edges).None?
  {
    var ids := Ids(nodes);
    forall e | e in edges
      ensures IndexOf(ids, e.src) < IndexOf(ids, e.dst)
    {
      var i := PathEdge(nodes, edges, e);
      assert ids[i] in ids && ids[i + 1] in ids;
    }
    NumberingRulesOutCycles(edges, IdSet(nodes), v => IndexOf(ids, v));
    FindCycleIffCyclic(nodes, edges);
  }

  lemma PathHasNoDeadEnd(nodes: seq<Node>, edges: seq<Edge>)
    requires IsPath(nodes, edges) && nodes[|nodes| - 1].kind == Settle
    ensures DeadEnds(nodes, edges) == []
  {
    forall n | n in nodes && n.kind != Settle
      ensures exists w :: Edge(n.id, w) in edges
    {
      var i :| 0 <= i < |nodes| && nodes[i] == n;
      PathHasEdge(nodes, edges, i);
    }
  }

  /** No two vertices of a path feed the same one. */
  lemma PathIsLevelled(nodes: seq<Node>, edges: seq<Edge>)
    requires IsPath(nodes, edges)
    ensures Levelled(edges, RootSet(nodes, edges))
  {
    forall e, f | e in edges && f in edges && e.dst == f.dst
      ensures e.src == f.src
    {
      var i := PathEdge(nodes, edges, e);
      var j := PathEdge(nodes, edges, f);
    }
    OneFeederIsLevelled(nodes, edges);
  }

  lemma PathRank(nodes: seq<Node>, edges: seq<Edge>, i: nat)
    requires IsPath(nodes, edges) && i < |nodes|
    ensures Rank(nodes, edges, nodes[i].id) == i
  {
    PathIsLevelled(nodes, edges);
    PathDistance(nodes, edges, i);
    LevelledRank(nodes, edges, nodes[i].id, i);
  }

  /** A graph compiled from any step list with a recognised step is closed, raises at most
      the swap tip, runs in step order, and is drawn with node i in column i. */
  lemma CompiledStepsAreSound(prefix: string, steps: seq<Step>)
    requires exists s :: s in steps && StepKind(s).Some?
    ensures var nodes := CanvasNodes(prefix, steps);
            var edges := Chain(Ids(nodes));
            && nodes != [] && DistinctIds(nodes) && Closed(nodes, edges)
            && Issues(nodes, edges) == MergePart(nodes, edges)
            && Order(nodes, edges) == Ids(nodes)
            && (forall i :: 0 <= i < |nodes| ==> Rank(nodes, edges, nodes[i].id) == i)
  {
    var nodes := CanvasNodes(prefix, steps);
    var edges := Chain(Ids(nodes));
    CanvasIsSettledPath(prefix, steps);
    PathIsClosed(nodes, edges);
    PathHasNoCycle(nodes, edges);
    PathHasNoDeadEnd(nodes, edges);
    assert nodes[|nodes| - 1] in nodes;
    AcyclicOrderNeedsNoFallback(nodes, edges);
    PathReached(nodes, edges);
    forall i | 0 <= i < |nodes|
      ensures Rank(nodes, edges, nodes[i].id) == i
    {
      PathRank(nodes, edges, i);
    }
  }
}
