/** `walkOrder`: the order in which steps are simulated and deployed. */
module WalkOrder {
  import opened Graph
  import opened Traversal

  function ItemIds(items: seq<Item>): (r: seq<Id>)
    ensures |r| == |items|
    ensures forall i :: 0 <= i < |items| ==> r[i] == items[i].id
    ensures forall v :: v in r <==> v in Seen(items)
  {
    var r := seq(|items|, i requires 0 <= i < |items| => items[i].id);
    assert forall v :: v in r ==> exists it :: it in items && it.id == v;
    assert forall it :: it in items ==> it.id in r by {
      forall it | it in items
        ensures it.id in r
      {
        var i :| 0 <= i < |items| && items[i] == it;
        assert r[i] == it.id;
      }
    }
    r
  }

  /** Ids of the nodes outside `seen`, in node order. */
  function Leftover(nodes: seq<Node>, seen: set<Id>): (r: seq<Id>)
    ensures forall v :: v in r <==> v in IdSet(nodes) && v !in seen
  {
    if nodes == [] then []
    else
      var n := nodes[|nodes| - 1];
      assert nodes == nodes[..|nodes| - 1] + [n];
      Leftover(nodes[..|nodes| - 1], seen) + if n.id in seen then [] else [n.id]
  }

  /** The order as a function of the graph. */
  function Order(nodes: seq<Node>, edges: seq<Edge>): seq<Id> {
    var reached := Reached(nodes, edges);
    ItemIds(reached) + Leftover(nodes, Seen(reached))
  }

  /** Reachable vertices first, each once, by non-decreasing shortest distance from the
      in-degree-0 nodes; then the unreachable nodes in list order. */
  lemma OrderByDistance(nodes: seq<Node>, edges: seq<Edge>) returns (k: nat)
    ensures var order := Order(nodes, edges);
            var roots := RootSet(nodes, edges);
            && k <= |order|
            && Distinct(order[..k])
            && (forall v :: v in order[..k] <==> Reachable(edges, roots, v))
            && (forall i, j, c: nat, d: nat ::
                  0 <= i < j < k && Distance(edges, roots, order[i], c) && Distance(edges, roots, order[j], d)
                  ==> c <= d)
            && order[k..] == Leftover(nodes, set v | v in order[..k])
  {
    ReachedByDistance(nodes, edges);
    var reached := Reached(nodes, edges);
    k := |reached|;
    var order := Order(nodes, edges);
    assert order[..k] == ItemIds(reached);
    assert (set v | v in order[..k]) == Seen(reached);
    forall i | 0 <= i < k
      ensures Distance(edges, RootSet(nodes, edges), order[i], reached[i].level)
    {
      assert reached[i] in reached;
    }
  }

  /** On a list of nodes with distinct ids and closed edges, the order is a permutation. */
  lemma OrderIsPermutation(nodes: seq<Node>, edges: seq<Edge>)
    requires DistinctIds(nodes) && Closed(nodes, edges)
    ensures Distinct(Order(nodes, edges))
    ensures forall v :: v in Order(nodes, edges) <==> v in IdSet(nodes)
  {
    var reached := Reached(nodes, edges);
    ReachedAreNodes(nodes, edges);
    LeftoverDistinct(nodes, Seen(reached));
    JoinDistinct(ItemIds(reached), Leftover(nodes, Seen(reached)));
  }

  lemma JoinDistinct(a: seq<Id>, b: seq<Id>)
    requires Distinct(a) && Distinct(b) && forall v :: v in b ==> v !in a
    ensures Distinct(a + b)
    ensures forall v :: v in a + b <==> v in a || v in b
  {
    assert forall i :: 0 <= i < |a| ==> a[i] in a;
    assert forall i :: 0 <= i < |b| ==> b[i] in b;
  }

  lemma ReachedAreNodes(nodes: seq<Node>, edges: seq<Edge>)
    requires Closed(nodes, edges)
    ensures Seen(Reached(nodes, edges)) <= IdSet(nodes)
    ensures Distinct(ItemIds(Reached(nodes, edges)))
  {
    ReachedByDistance(nodes, edges);
    forall v | v in Seen(Reached(nodes, edges))
      ensures v in IdSet(nodes)
    {
      ReachableIsNode(nodes, edges, v);
    }
  }

  lemma ReachableIsNode(nodes: seq<Node>, edges: seq<Edge>, v: Id)
    requires Closed(nodes, edges) && Reachable(edges, RootSet(nodes, edges), v)
    ensures v in IdSet(nodes)
  {
    var n: nat :| WalkTo(edges, RootSet(nodes, edges), v, n);
    if n > 0 {
      var u :| Edge(u, v) in edges && WalkTo(edges, RootSet(nodes, edges), u, n - 1);
    }
  }

  lemma {:induction false} LeftoverDistinct(nodes: seq<Node>, seen: set<Id>)
    requires DistinctIds(nodes)
    ensures Distinct(Leftover(nodes, seen))
  {
    if nodes != [] {
      var front := nodes[..|nodes| - 1];
      LeftoverDistinct(front, seen);
      var id := nodes[|nodes| - 1].id;
      assert id !in IdSet(front) by {
        assert forall n :: n in front ==> exists i :: 0 <= i < |nodes| - 1 && nodes[i] == n;
      }
      var r := Leftover(front, seen);
      assert forall i :: 0 <= i < |r| ==> r[i] in r;
    }
  }

  // ----- when the walk is a topological order -----

  /** Every edge out of a reachable vertex raises the shortest distance by exactly one. */
  ghost predicate Levelled(edges: seq<Edge>, roots: set<Id>) {
    forall u, w, d: nat :: Edge(u, w) in edges && Distance(edges, roots, u, d) ==> Distance(edges, roots, w, d + 1)
  }

  /** No edge out of a reachable vertex points at or before its source in the order. */
  ghost predicate Forward(edges: seq<Edge>, order: seq<Id>, k: nat)
    requires k <= |order|
  {
    forall i, j :: 0 <= i < k && 0 <= j < k && Edge(order[i], order[j]) in edges ==> i < j
  }

  /** Forests and chains: with at most one vertex feeding each vertex, the graph is levelled. */
  lemma OneFeederIsLevelled(nodes: seq<Node>, edges: seq<Edge>)
    requires forall e, f :: e in edges && f in edges && e.dst == f.dst ==> e.src == f.src
    ensures Levelled(edges, RootSet(nodes, edges))
  {
    var roots := RootSet(nodes, edges);
    forall u, w, d: nat | Edge(u, w) in edges && Distance(edges, roots, u, d)
      ensures Distance(edges, roots, w, d + 1)
    {
      WalkStep(edges, roots, u, w, d);
      forall k: nat | WalkTo(edges, roots, w, k)
        ensures d + 1 <= k
      {
        assert Edge(u, w).dst == w;
        assert k > 0;
        var p :| Edge(p, w) in edges && WalkTo(edges, roots, p, k - 1);
        assert Edge(p, w).src == Edge(u, w).src;
      }
    }
  }

  /** Balanced diamonds, and whatever can be drawn in columns with every edge crossing one gap. */
  lemma GradedIsLevelled(edges: seq<Edge>, roots: set<Id>, height: Id -> int)
    requires forall v :: v in roots ==> height(v) == 0
    requires forall u, w :: Edge(u, w) in edges ==> height(w) == height(u) + 1
    ensures Levelled(edges, roots)
  {
    forall u, w, d: nat | Edge(u, w) in edges && Distance(edges, roots, u, d)
      ensures Distance(edges, roots, w, d + 1)
    {
      WalkStep(edges, roots, u, w, d);
      forall v, k: nat | WalkTo(edges, roots, v, k)
        ensures height(v) == k
      {
        WalkClimbs(edges, roots, height, v, k);
      }
    }
  }

  lemma {:induction false} WalkClimbs(edges: seq<Edge>, roots: set<Id>, height: Id -> int, v: Id, n: nat)
    requires forall v :: v in roots ==> height(v) == 0
    requires forall u, w :: Edge(u, w) in edges ==> height(w) == height(u) + 1
    requires WalkTo(edges, roots, v, n)
    ensures height(v) == n
    decreases n
  {
    if n > 0 {
      var u :| Edge(u, v) in edges && WalkTo(edges, roots, u, n - 1);
      WalkClimbs(edges, roots, height, u, n - 1);
    }
  }

  lemma LevelledRunsForward(nodes: seq<Node>, edges: seq<Edge>)
    requires Levelled(edges, RootSet(nodes, edges))
    ensures Forward(edges, Order(nodes, edges), |Reached(nodes, edges)|)
  {
    ReachedByDistance(nodes, edges);
    var r, roots := Reached(nodes, edges), RootSet(nodes, edges);
    var order := Order(nodes, edges);
    forall i, j | 0 <= i < |r| && 0 <= j < |r| && Edge(order[i], order[j]) in edges
      ensures i < j
    {
      assert r[i] in r && r[j] in r;
      assert Distance(edges, roots, r[j].id, r[i].level + 1);
      DistanceUnique(edges, roots, r[j].id, r[j].level, r[i].level + 1);
    }
  }

  lemma DistanceUnique(edges: seq<Edge>, roots: set<Id>, v: Id, c: nat, d: nat)
    requires Distance(edges, roots, v, c) && Distance(edges, roots, v, d)
    ensures c == d
  {}

  lemma ForwardRaisesDistance(nodes: seq<Node>, edges: seq<Edge>, u: Id, w: Id, d: nat, c: nat)
    requires Forward(edges, Order(nodes, edges), |Reached(nodes, edges)|)
    requires Edge(u, w) in edges
    requires Distance(edges, RootSet(nodes, edges), u, d) && Distance(edges, RootSet(nodes, edges), w, c)
    ensures d <= c <= d + 1
  {
    var roots := RootSet(nodes, edges);
    WalkStep(edges, roots, u, w, d);
    var i := PositionOf(nodes, edges, u, d);
    var j := PositionOf(nodes, edges, w, c);
    ReachedByDistance(nodes, edges);
  }

  lemma PositionOf(nodes: seq<Node>, edges: seq<Edge>, v: Id, d: nat) returns (i: nat)
    requires Distance(edges, RootSet(nodes, edges), v, d)
    ensures i < |Reached(nodes, edges)| && Reached(nodes, edges)[i] == Item(v, d)
    ensures Order(nodes, edges)[i] == v
  {
    ReachedByDistance(nodes, edges);
    var r, roots := Reached(nodes, edges), RootSet(nodes, edges);
    assert Reachable(edges, roots, v);
    var it :| it in r && it.id == v;
    i :| 0 <= i < |r| && r[i] == it;
    DistanceUnique(edges, roots, v, d, it.level);
  }

  lemma HasDistance(edges: seq<Edge>, roots: set<Id>, v: Id, n: nat) returns (d: nat)
    requires WalkTo(edges, roots, v, n)
    ensures Distance(edges, roots, v, d) && d <= n
  {
    if k: nat :| k < n && WalkTo(edges, roots, v, k) {
      d := HasDistance(edges, roots, v, k);
    } else {
      d := n;
    }
  }

  // ----- the loop of the source -----

  method CountIncoming(nodes: seq<Node>, edges: seq<Edge>) returns (incoming: map<Id, nat>)
    ensures incoming.Keys == IdSet(nodes)
    ensures forall v :: v in incoming ==> incoming[v] == InDegree(edges, v)
  {
    incoming := map[];
    for i := 0 to |nodes|
      invariant incoming.Keys == IdSet(nodes[..i])
      invariant forall v :: v in incoming ==> incoming[v] == 0
    {
      incoming := incoming[nodes[i].id := 0];
      assert nodes[..i + 1] == nodes[..i] + [nodes[i]];
    }
    assert nodes[..|nodes|] == nodes;
    for i := 0 to |edges|
      invariant incoming.Keys == IdSet(nodes)
      invariant forall v :: v in incoming ==> incoming[v] == InDegree(edges[..i], v)
    {
      var e := edges[i];
      assert edges[..i + 1][..i] == edges[..i];
      if e.dst in incoming {
        incoming := incoming[e.dst := incoming[e.dst] + 1];
      }
    }
    assert edges[..|edges|] == edges;
  }

  method FindRoots(nodes: seq<Node>, edges: seq<Edge>) returns (roots: seq<Id>)
    ensures roots == Roots(nodes, edges)
  {
    var incoming := CountIncoming(nodes, edges);
    roots := [];
    for i := 0 to |nodes|
      invariant roots == Roots(nodes[..i], edges)
    {
      assert nodes[..i + 1][..i] == nodes[..i];
      assert nodes[i] in nodes;
      if incoming[nodes[i].id] == 0 {
        roots := roots + [nodes[i].id];
      }
    }
    assert nodes[..|nodes|] == nodes;
  }

  method PushTargets(queue0: seq<Id>, edges: seq<Edge>, id: Id) returns (queue: seq<Id>)
    ensures queue == queue0 + Succs(edges, id)
  {
    queue := queue0;
    for j := 0 to |edges|
      invariant queue == queue0 + Succs(edges[..j], id)
    {
      assert edges[..j + 1][..j] == edges[..j];
      if edges[j].src == id {
        queue := queue + [edges[j].dst];
      }
    }
    assert edges[..|edges|] == edges;
  }

  method AppendUnseen(order0: seq<Id>, nodes: seq<Node>, seen: set<Id>) returns (order: seq<Id>)
    ensures order == order0 + Leftover(nodes, seen)
  {
    order := order0;
    for i := 0 to |nodes|
      invariant order == order0 + Leftover(nodes[..i], seen)
    {
      assert nodes[..i + 1][..i] == nodes[..i];
      if nodes[i].id !in seen {
        order := order + [nodes[i].id];
      }
    }
    assert nodes[..|nodes|] == nodes;
  }

  lemma ItemIdsGrow(items: seq<Item>, succs: seq<Id>, level: nat)
    ensures ItemIds(items + Expand(succs, level)) == ItemIds(items) + succs
  {}

  lemma SeenGrows(visited: seq<Item>, it: Item)
    ensures Seen(visited + [it]) == Seen(visited) + {it.id}
    ensures ItemIds(visited + [it]) == ItemIds(visited) + [it.id]
  {
    assert it in visited + [it];
    assert forall q :: q in visited ==> q in visited + [it];
  }

  /** The labelled turn of `Bfs` that one turn of the unlabelled loop follows. */
  lemma Turn(edges: seq<Edge>, items: seq<Item>, visited: seq<Item>)
    returns (items': seq<Item>, visited': seq<Item>)
    requires items != []
    ensures Bfs(edges, items', visited') == Bfs(edges, items, visited)
    ensures Todo(edges, items', visited') <= Todo(edges, items, visited)
    ensures var id := items[0].id;
            if id in Seen(visited) then
              && ItemIds(items') == ItemIds(items)[1..]
              && visited' == visited
            else
              && ItemIds(items') == ItemIds(items)[1..] + Succs(edges, id)
              && ItemIds(visited') == ItemIds(visited) + [id]
              && Seen(visited') == Seen(visited) + {id}
              && Todo(edges, items', visited') < Todo(edges, items, visited)
  {
    var it, rest := items[0], items[1..];
    assert ItemIds(rest) == ItemIds(items)[1..];
    if it.id in Seen(visited) {
      items', visited' := rest, visited;
      BfsSkip(edges, items, visited);
    } else {
      items', visited' := rest + Expand(Succs(edges, it.id), it.level + 1), visited + [it];
      BfsVisit(edges, items, visited, items', visited');
      ItemIdsGrow(rest, Succs(edges, it.id), it.level + 1);
      SeenGrows(visited, it);
    }
  }

  method ComputeOrder(nodes: seq<Node>, edges: seq<Edge>) returns (order: seq<Id>)
    ensures order == Order(nodes, edges)
  {
    if |nodes| == 0 {
      return [];
    }
    var queue := FindRoots(nodes, edges);
    order := [];
    var seen: set<Id> := {};
    ghost var items: seq<Item>, visited: seq<Item> := Expand(queue, 0), [];
    while queue != []
      invariant queue == ItemIds(items) && order == ItemIds(visited) && seen == Seen(visited)
      invariant Bfs(edges, items, visited) == Reached(nodes, edges)
      decreases Todo(edges, items, visited), |queue|
    {
      var id := queue[0];
      items, visited := Turn(edges, items, visited);
      queue := queue[1..];
      if id !in seen {
        seen := seen + {id};
        order := order + [id];
        queue := PushTargets(queue, edges, id);
      }
    }
    order := AppendUnseen(order, nodes, seen);
  }
}
