/** Renaming the ids of a graph, and what the analyses make of the renamed graph. */
module Renaming {
  import opened Graph
  import opened Traversal
  import opened WalkOrder

  ghost predicate Injective(f: Id -> Id, vs: set<Id>) {
    forall u, v :: u in vs && v in vs && f(u) == f(v) ==> u == v
  }

  /** All the ids of the graph lie in `vs`, on which `f` is injective. */
  ghost predicate Renames(f: Id -> Id, vs: set<Id>, edges: seq<Edge>) {
    && Injective(f, vs)
    && forall e :: e in edges ==> e.src in vs && e.dst in vs
  }

  function MapIds(f: Id -> Id, s: seq<Id>): (r: seq<Id>)
    ensures |r| == |s| && forall i :: 0 <= i < |s| ==> r[i] == f(s[i])
  {
    seq(|s|, i requires 0 <= i < |s| => f(s[i]))
  }

  function MapEdges(f: Id -> Id, s: seq<Edge>): (r: seq<Edge>)
    ensures |r| == |s| && forall i :: 0 <= i < |s| ==> r[i] == Edge(f(s[i].src), f(s[i].dst))
  {
    seq(|s|, i requires 0 <= i < |s| => Edge(f(s[i].src), f(s[i].dst)))
  }

  function MapNodes(f: Id -> Id, s: seq<Node>): (r: seq<Node>)
    ensures |r| == |s| && forall i :: 0 <= i < |s| ==> r[i] == s[i].(id := f(s[i].id))
  {
    seq(|s|, i requires 0 <= i < |s| => s[i].(id := f(s[i].id)))
  }

  function MapItems(f: Id -> Id, s: seq<Item>): (r: seq<Item>)
    ensures |r| == |s| && forall i :: 0 <= i < |s| ==> r[i] == Item(f(s[i].id), s[i].level)
  {
    seq(|s|, i requires 0 <= i < |s| => Item(f(s[i].id), s[i].level))
  }

  // ----- successors, roots, traversal -----

  lemma {:induction false} SuccsRenamed(f: Id -> Id, vs: set<Id>, edges: seq<Edge>, v: Id)
    requires Renames(f, vs, edges) && v in vs
    ensures Succs(MapEdges(f, edges), f(v)) == MapIds(f, Succs(edges, v))
  {
    if edges != [] {
      var rest, e := edges[..|edges| - 1], edges[|edges| - 1];
      SuccsRenamed(f, vs, rest, v);
      assert MapEdges(f, edges)[..|edges| - 1] == MapEdges(f, rest);
      assert e in edges;
    }
  }

  lemma SuccsInside(vs: set<Id>, f: Id -> Id, edges: seq<Edge>, v: Id)
    requires Renames(f, vs, edges)
    ensures forall w :: w in Succs(edges, v) ==> w in vs
  {
    forall w | w in Succs(edges, v)
      ensures w in vs
    {
      assert Edge(v, w).dst in vs;
    }
  }

  lemma {:induction false} InDegreeRenamed(f: Id -> Id, vs: set<Id>, edges: seq<Edge>, v: Id)
    requires Renames(f, vs, edges) && v in vs
    ensures InDegree(MapEdges(f, edges), f(v)) == InDegree(edges, v)
  {
    if edges != [] {
      var rest, e := edges[..|edges| - 1], edges[|edges| - 1];
      InDegreeRenamed(f, vs, rest, v);
      assert MapEdges(f, edges)[..|edges| - 1] == MapEdges(f, rest);
      assert e in edges;
    }
  }

  lemma MapIdsConcat(f: Id -> Id, a: seq<Id>, b: seq<Id>)
    ensures MapIds(f, a + b) == MapIds(f, a) + MapIds(f, b)
  {}

  lemma {:induction false} RootsRenamed(f: Id -> Id, vs: set<Id>, nodes: seq<Node>, edges: seq<Edge>)
    requires Renames(f, vs, edges) && forall n :: n in nodes ==> n.id in vs
    ensures Roots(MapNodes(f, nodes), MapEdges(f, edges)) == MapIds(f, Roots(nodes, edges))
  {
    if nodes != [] {
      var rest, n := nodes[..|nodes| - 1], nodes[|nodes| - 1];
      var last := if InDegree(edges, n.id) == 0 then [n.id] else [];
      RootsRenamed(f, vs, rest, edges);
      assert MapNodes(f, nodes)[..|nodes| - 1] == MapNodes(f, rest);
      assert n in nodes;
      InDegreeRenamed(f, vs, edges, n.id);
      MapIdsConcat(f, Roots(rest, edges), last);
      assert MapIds(f, last) == if InDegree(edges, n.id) == 0 then [f(n.id)] else [];
    }
  }

  ghost predicate ItemsInside(vs: set<Id>, items: seq<Item>) {
    forall it :: it in items ==> it.id in vs
  }

  lemma SeenRenamed(f: Id -> Id, vs: set<Id>, items: seq<Item>, v: Id)
    requires Injective(f, vs) && ItemsInside(vs, items) && v in vs
    ensures f(v) in Seen(MapItems(f, items)) <==> v in Seen(items)
  {
    var r := MapItems(f, items);
    if v in Seen(items) {
      var it :| it in items && it.id == v;
      var i :| 0 <= i < |items| && items[i] == it;
      assert r[i] in r;
    }
    if f(v) in Seen(r) {
      var it :| it in r && it.id == f(v);
      var i :| 0 <= i < |r| && r[i] == it;
      assert items[i] in items;
    }
  }

  lemma VisitInside(f: Id -> Id, vs: set<Id>, edges: seq<Edge>, queue: seq<Item>, more: seq<Item>)
    requires Renames(f, vs, edges) && queue != [] && ItemsInside(vs, queue)
    requires more == queue[1..] + Expand(Succs(edges, queue[0].id), queue[0].level + 1)
    ensures ItemsInside(vs, more)
  {
    var next := Expand(Succs(edges, queue[0].id), queue[0].level + 1);
    SuccsInside(vs, f, edges, queue[0].id);
    forall b | b in next
      ensures b.id in vs
    {
      assert b.id in Succs(edges, queue[0].id);
    }
    assert forall b :: b in queue[1..] ==> b in queue;
  }

  lemma ExpandRenamed(f: Id -> Id, rest: seq<Item>, succs: seq<Id>, level: nat)
    ensures MapItems(f, rest + Expand(succs, level)) == MapItems(f, rest) + Expand(MapIds(f, succs), level)
  {}

  lemma VisitRenamed(f: Id -> Id, vs: set<Id>, edges: seq<Edge>, queue: seq<Item>, more: seq<Item>)
    requires Renames(f, vs, edges) && queue != [] && ItemsInside(vs, queue)
    requires more == queue[1..] + Expand(Succs(edges, queue[0].id), queue[0].level + 1)
    ensures var q := MapItems(f, queue);
            MapItems(f, more) == q[1..] + Expand(Succs(MapEdges(f, edges), q[0].id), q[0].level + 1)
  {
    assert queue[0] in queue;
    SuccsRenamed(f, vs, edges, queue[0].id);
    ExpandRenamed(f, queue[1..], Succs(edges, queue[0].id), queue[0].level + 1);
    MapTail(f, queue);
  }

  lemma MapTail(f: Id -> Id, items: seq<Item>)
    requires items != []
    ensures MapItems(f, items[1..]) == MapItems(f, items)[1..]
  {}

  /** Both traversals skip together. */
  lemma SkipTogether(f: Id -> Id, vs: set<Id>, edges: seq<Edge>, queue: seq<Item>, visited: seq<Item>)
    requires Renames(f, vs, edges) && ItemsInside(vs, queue) && ItemsInside(vs, visited)
    requires queue != [] && queue[0].id in Seen(visited)
    ensures ItemsInside(vs, queue[1..])
    ensures Bfs(MapEdges(f, edges), MapItems(f, queue[1..]), MapItems(f, visited))
         == Bfs(MapEdges(f, edges), MapItems(f, queue), MapItems(f, visited))
  {
    assert queue[0] in queue;
    SeenRenamed(f, vs, visited, queue[0].id);
    BfsSkip(MapEdges(f, edges), MapItems(f, queue), MapItems(f, visited));
    assert MapItems(f, queue[1..]) == MapItems(f, queue)[1..];
    assert forall it :: it in queue[1..] ==> it in queue;
  }

  /** Both traversals visit together. */
  lemma VisitTogether(f: Id -> Id, vs: set<Id>, edges: seq<Edge>, queue: seq<Item>, visited: seq<Item>, more: seq<Item>)
    requires Renames(f, vs, edges) && ItemsInside(vs, queue) && ItemsInside(vs, visited)
    requires queue != [] && queue[0].id !in Seen(visited)
    requires more == queue[1..] + Expand(Succs(edges, queue[0].id), queue[0].level + 1)
    ensures ItemsInside(vs, more) && ItemsInside(vs, visited + [queue[0]])
    ensures Bfs(MapEdges(f, edges), MapItems(f, more), MapItems(f, visited + [queue[0]]))
         == Bfs(MapEdges(f, edges), MapItems(f, queue), MapItems(f, visited))
  {
    assert queue[0] in queue;
    SeenRenamed(f, vs, visited, queue[0].id);
    VisitRenamed(f, vs, edges, queue, more);
    VisitInside(f, vs, edges, queue, more);
    MapAppend(f, visited, queue[0]);
    BfsVisit(MapEdges(f, edges), MapItems(f, queue), MapItems(f, visited),
             MapItems(f, more), MapItems(f, visited + [queue[0]]));
  }

  lemma MapAppend(f: Id -> Id, items: seq<Item>, it: Item)
    ensures MapItems(f, items + [it]) == MapItems(f, items) + [Item(f(it.id), it.level)]
  {}

  lemma {:induction false} BfsRenamed(f: Id -> Id, vs: set<Id>, edges: seq<Edge>, queue: seq<Item>, visited: seq<Item>)
    requires Renames(f, vs, edges) && ItemsInside(vs, queue) && ItemsInside(vs, visited)
    ensures Bfs(MapEdges(f, edges), MapItems(f, queue), MapItems(f, visited)) == MapItems(f, Bfs(edges, queue, visited))
    ensures ItemsInside(vs, Bfs(edges, queue, visited))
    decreases Todo(edges, queue, visited), |queue|
  {
    if queue != [] {
      var queue', visited' := queue[1..], visited;
      if queue[0].id in Seen(visited) {
        BfsSkip(edges, queue, visited);
        SkipTogether(f, vs, edges, queue, visited);
      } else {
        queue' := queue[1..] + Expand(Succs(edges, queue[0].id), queue[0].level + 1);
        visited' := visited + [queue[0]];
        BfsVisit(edges, queue, visited, queue', visited');
        VisitTogether(f, vs, edges, queue, visited, queue');
      }
      BfsRenamed(f, vs, edges, queue', visited');
    }
  }

  lemma {:induction false} LeftoverRenamed(f: Id -> Id, vs: set<Id>, nodes: seq<Node>, items: seq<Item>)
    requires Injective(f, vs) && ItemsInside(vs, items) && forall n :: n in nodes ==> n.id in vs
    ensures Leftover(MapNodes(f, nodes), Seen(MapItems(f, items))) == MapIds(f, Leftover(nodes, Seen(items)))
  {
    if nodes != [] {
      var rest, n := nodes[..|nodes| - 1], nodes[|nodes| - 1];
      LeftoverRenamed(f, vs, rest, items);
      assert MapNodes(f, nodes)[..|nodes| - 1] == MapNodes(f, rest);
      assert n in nodes;
      SeenRenamed(f, vs, items, n.id);
    }
  }

  lemma ReachedRenamed(f: Id -> Id, vs: set<Id>, nodes: seq<Node>, edges: seq<Edge>)
    requires Renames(f, vs, edges) && forall n :: n in nodes ==> n.id in vs
    ensures Reached(MapNodes(f, nodes), MapEdges(f, edges)) == MapItems(f, Reached(nodes, edges))
    ensures ItemsInside(vs, Reached(nodes, edges))
  {
    var ids := Roots(nodes, edges);
    RootsRenamed(f, vs, nodes, edges);
    assert MapItems(f, Expand(ids, 0)) == Expand(MapIds(f, ids), 0);
    assert MapItems(f, []) == [];
    forall it | it in Expand(ids, 0)
      ensures it.id in vs
    {
      assert it.id in ids;
    }
    BfsRenamed(f, vs, edges, Expand(ids, 0), []);
  }

  /** The walk of the renamed graph is the renamed walk. */
  lemma OrderRenamed(f: Id -> Id, vs: set<Id>, nodes: seq<Node>, edges: seq<Edge>)
    requires Renames(f, vs, edges) && forall n :: n in nodes ==> n.id in vs
    ensures Order(MapNodes(f, nodes), MapEdges(f, edges)) == MapIds(f, Order(nodes, edges))
  {
    var reached := Reached(nodes, edges);
    ReachedRenamed(f, vs, nodes, edges);
    LeftoverRenamed(f, vs, nodes, reached);
    MapIdsConcat(f, ItemIds(reached), Leftover(nodes, Seen(reached)));
    assert MapIds(f, ItemIds(reached)) == ItemIds(MapItems(f, reached));
  }
}
