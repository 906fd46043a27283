/** Breadth-first traversal as `walkOrder` and `organizeLayout` run it: the queue may hold
    a vertex many times, and the level of an item is the `r` that the layout carries along. */
module Traversal {
  import opened Graph

  datatype Item = Item(id: Id, level: nat)

  ghost function Targets(edges: seq<Edge>): set<Id> {
    set e | e in edges :: e.dst
  }

  function Seen(items: seq<Item>): set<Id> {
    set it | it in items :: it.id
  }

  function Expand(succs: seq<Id>, level: nat): (r: seq<Item>)
    ensures |r| == |succs|
    ensures forall i :: 0 <= i < |succs| ==> r[i] == Item(succs[i], level)
  {
    seq(|succs|, i requires 0 <= i < |succs| => Item(succs[i], level))
  }

  /** Vertices that may still have to be visited. */
  ghost function Todo(edges: seq<Edge>, queue: seq<Item>, visited: seq<Item>): set<Id> {
    Targets(edges) + Seen(queue) - Seen(visited)
  }

  function Bfs(edges: seq<Edge>, queue: seq<Item>, visited: seq<Item>): seq<Item>
    decreases Todo(edges, queue, visited), |queue|
  {
    if queue == [] then visited
    else
      var it := queue[0];
      if it.id in Seen(visited) then
        assert Todo(edges, queue[1..], visited) <= Todo(edges, queue, visited);
        Bfs(edges, queue[1..], visited)
      else
        VisitShrinks(edges, queue, visited);
        Bfs(edges, queue[1..] + Expand(Succs(edges, it.id), it.level + 1), visited + [it])
  }

  lemma VisitShrinks(edges: seq<Edge>, queue: seq<Item>, visited: seq<Item>)
    requires queue != [] && queue[0].id !in Seen(visited)
    ensures Todo(edges, queue[1..] + Expand(Succs(edges, queue[0].id), queue[0].level + 1), visited + [queue[0]])
          < Todo(edges, queue, visited)
  {
    var it := queue[0];
    var next := Expand(Succs(edges, it.id), it.level + 1);
    forall v | v in Seen(queue[1..] + next)
      ensures v in Seen(queue) || v in Targets(edges)
    {
      var q :| q in queue[1..] + next && q.id == v;
      if q !in queue[1..] {
        assert q in next;
        assert Edge(it.id, v) in edges;
      }
    }
    assert it in queue && it in visited + [it];
    assert it.id in Todo(edges, queue, visited);
    assert it.id in Seen(visited + [it]);
    assert forall q :: q in visited ==> q in visited + [it];
    assert Seen(visited) <= Seen(visited + [it]);
  }

  /** Skipping a vertex seen before: the result stays, and the work left does not grow. */
  lemma BfsSkip(edges: seq<Edge>, queue: seq<Item>, visited: seq<Item>)
    requires queue != [] && queue[0].id in Seen(visited)
    ensures Bfs(edges, queue[1..], visited) == Bfs(edges, queue, visited)
    ensures Todo(edges, queue[1..], visited) <= Todo(edges, queue, visited)
  {}

  /** Visiting a new vertex: the result stays, and the work left shrinks. */
  lemma BfsVisit(edges: seq<Edge>, queue: seq<Item>, visited: seq<Item>, queue': seq<Item>, visited': seq<Item>)
    requires queue != [] && queue[0].id !in Seen(visited)
    requires queue' == queue[1..] + Expand(Succs(edges, queue[0].id), queue[0].level + 1)
    requires visited' == visited + [queue[0]]
    ensures Bfs(edges, queue', visited') == Bfs(edges, queue, visited)
    ensures Todo(edges, queue', visited') < Todo(edges, queue, visited)
  {
    VisitShrinks(edges, queue, visited);
  }

  // ----- distance -----

  /** Some walk of `n` edges leads from a root to `v`. */
  ghost predicate WalkTo(edges: seq<Edge>, roots: set<Id>, v: Id, n: nat)
    decreases n
  {
    if n == 0 then v in roots
    else exists u :: Edge(u, v) in edges && WalkTo(edges, roots, u, n - 1)
  }

  ghost predicate Reachable(edges: seq<Edge>, roots: set<Id>, v: Id) {
    exists n: nat :: WalkTo(edges, roots, v, n)
  }

  /** `d` is the length of a shortest walk from a root to `v`. */
  ghost predicate Distance(edges: seq<Edge>, roots: set<Id>, v: Id, d: nat) {
    WalkTo(edges, roots, v, d) && forall k: nat :: WalkTo(edges, roots, v, k) ==> d <= k
  }

  lemma WalkStep(edges: seq<Edge>, roots: set<Id>, u: Id, v: Id, n: nat)
    requires WalkTo(edges, roots, u, n) && Edge(u, v) in edges
    ensures WalkTo(edges, roots, v, n + 1)
  {}

  lemma {:induction false} WalkJoin(edges: seq<Edge>, roots: set<Id>, u: Id, v: Id, m: nat, n: nat)
    requires WalkTo(edges, roots, u, m) && WalkTo(edges, {u}, v, n)
    ensures WalkTo(edges, roots, v, m + n)
    decreases n
  {
    if n > 0 {
      var w :| Edge(w, v) in edges && WalkTo(edges, {u}, w, n - 1);
      WalkJoin(edges, roots, u, w, m, n - 1);
    }
  }

  lemma {:induction false} WalkWidens(edges: seq<Edge>, more: seq<Edge>, roots: set<Id>, v: Id, n: nat)
    requires WalkTo(edges, roots, v, n) && forall e :: e in edges ==> e in more
    ensures WalkTo(more, roots, v, n)
    decreases n
  {
    if n > 0 {
      var u :| Edge(u, v) in edges && WalkTo(edges, roots, u, n - 1);
      WalkWidens(edges, more, roots, u, n - 1);
    }
  }

  /** A walk of at least one edge leads from `u` to `v`. */
  ghost predicate Leads(edges: seq<Edge>, u: Id, v: Id) {
    exists n: nat :: n > 0 && WalkTo(edges, {u}, v, n)
  }

  lemma LeadsStep(edges: seq<Edge>, u: Id, v: Id)
    requires Edge(u, v) in edges
    ensures Leads(edges, u, v)
  {
    assert WalkTo(edges, {u}, u, 0);
    WalkStep(edges, {u}, u, v, 0);
  }

  lemma LeadsTransitive(edges: seq<Edge>, u: Id, v: Id, w: Id)
    requires Leads(edges, u, v) && Leads(edges, v, w)
    ensures Leads(edges, u, w)
  {
    var m: nat :| m > 0 && WalkTo(edges, {u}, v, m);
    var n: nat :| n > 0 && WalkTo(edges, {v}, w, n);
    WalkJoin(edges, {u}, v, w, m, n);
  }

  // ----- cycles as walks that lead back -----

  lemma {:induction false} AlongWalk(edges: seq<Edge>, p: seq<Id>, i: nat)
    requires IsWalk(edges, p) && i < |p|
    ensures WalkTo(edges, {p[0]}, p[i], i)
  {
    if i > 0 {
      AlongWalk(edges, p, i - 1);
      assert Hop(edges, p, i);
    }
  }

  lemma {:induction false} WalkSequence(edges: seq<Edge>, vs: set<Id>, u: Id, v: Id, n: nat) returns (p: seq<Id>)
    requires WalkTo(edges, {u}, v, n) && u in vs
    requires forall e :: e in edges ==> e.dst in vs
    ensures IsWalk(edges, p) && Within(p, vs)
    ensures |p| == n + 1 && p[0] == u && p[n] == v
    decreases n
  {
    if n == 0 {
      p := [u];
    } else {
      var w :| Edge(w, v) in edges && WalkTo(edges, {u}, w, n - 1);
      var q := WalkSequence(edges, vs, u, w, n - 1);
      p := q + [v];
      forall i | 0 < i < |p|
        ensures Hop(edges, p, i)
      {
        if i < |q| {
          assert Hop(edges, q, i);
        }
      }
      assert Edge(w, v).dst in vs;
    }
  }

  /** On edges that stay inside `vs`, a cycle is a vertex that leads back to itself. */
  lemma CycleIffLeadsBack(edges: seq<Edge>, vs: set<Id>)
    requires forall e :: e in edges ==> e.src in vs && e.dst in vs
    ensures HasCycle(edges, vs) <==> exists v :: v in vs && Leads(edges, v, v)
  {
    if c :| IsClosedWalk(edges, vs, c) {
      AlongWalk(edges, c, |c| - 1);
      assert Leads(edges, c[0], c[0]);
    }
    if v :| v in vs && Leads(edges, v, v) {
      var n: nat :| n > 0 && WalkTo(edges, {v}, v, n);
      var p := WalkSequence(edges, vs, v, v, n);
      assert IsClosedWalk(edges, vs, p);
    }
  }

  // ----- invariant of the traversal -----

  ghost predicate SortedLevels(items: seq<Item>) {
    forall i, j :: 0 <= i < j < |items| ==> items[i].level <= items[j].level
  }

  ghost predicate DistinctItems(items: seq<Item>) {
    forall i, j :: 0 <= i < j < |items| ==> items[i].id != items[j].id
  }

  /** `v` is visited or queued with a level of at most `n`. */
  ghost predicate Known(queue: seq<Item>, visited: seq<Item>, v: Id, n: int) {
    exists it :: (it in visited || it in queue) && it.id == v && it.level <= n
  }

  /** Every visited or queued level is the length of some walk. */
  ghost predicate Genuine(edges: seq<Edge>, roots: set<Id>, queue: seq<Item>, visited: seq<Item>) {
    forall it :: it in visited || it in queue ==> WalkTo(edges, roots, it.id, it.level)
  }

  /** Levels never decrease, and the queue spans at most two of them. */
  ghost predicate Banded(queue: seq<Item>, visited: seq<Item>) {
    && SortedLevels(visited)
    && SortedLevels(queue)
    && (forall a, b :: a in visited && b in queue ==> a.level <= b.level)
    && (forall b :: b in queue ==> b.level <= queue[0].level + 1)
  }

  /** Roots are known at level 0, and the targets of a visited vertex one level further. */
  ghost predicate Covering(edges: seq<Edge>, roots: set<Id>, queue: seq<Item>, visited: seq<Item>) {
    && (forall r :: r in roots ==> Known(queue, visited, r, 0))
    && (forall u, w :: u in visited && Edge(u.id, w) in edges ==> Known(queue, visited, w, u.level + 1))
  }

  ghost predicate Frontier(edges: seq<Edge>, roots: set<Id>, queue: seq<Item>, visited: seq<Item>) {
    && Genuine(edges, roots, queue, visited)
    && Banded(queue, visited)
    && Covering(edges, roots, queue, visited)
    && DistinctItems(visited)
  }

  lemma SkipKeepsFrontier(edges: seq<Edge>, roots: set<Id>, queue: seq<Item>, visited: seq<Item>)
    requires Frontier(edges, roots, queue, visited)
    requires queue != [] && queue[0].id in Seen(visited)
    ensures Frontier(edges, roots, queue[1..], visited)
  {
    var it := queue[0];
    assert forall b :: b in queue[1..] ==> b in queue;
    assert Banded(queue[1..], visited) by {
      assert forall i :: 0 <= i < |queue[1..]| ==> queue[1..][i] == queue[i + 1];
    }
    forall v, n | Known(queue, visited, v, n)
      ensures Known(queue[1..], visited, v, n)
    {
      var w :| (w in visited || w in queue) && w.id == v && w.level <= n;
      if w !in visited && w !in queue[1..] {
        assert w == it;
        var seen :| seen in visited && seen.id == it.id;
        assert it in queue;
      }
    }
  }

  lemma VisitKeepsFrontier(edges: seq<Edge>, roots: set<Id>, queue: seq<Item>, visited: seq<Item>)
    requires Frontier(edges, roots, queue, visited)
    requires queue != [] && queue[0].id !in Seen(visited)
    ensures Frontier(edges, roots,
                     queue[1..] + Expand(Succs(edges, queue[0].id), queue[0].level + 1),
                     visited + [queue[0]])
  {
    var it := queue[0];
    var next := Expand(Succs(edges, it.id), it.level + 1);
    var queue', visited' := queue[1..] + next, visited + [it];
    assert Genuine(edges, roots, queue', visited') by {
      VisitKeepsGenuine(edges, roots, queue, visited);
    }
    assert Banded(queue', visited') by {
      VisitKeepsBanded(queue, visited, next);
    }
    assert Covering(edges, roots, queue', visited') by {
      VisitKeepsCovering(edges, roots, queue, visited);
    }
    VisitKeepsDistinct(visited, it);
  }

  lemma VisitKeepsDistinct(visited: seq<Item>, it: Item)
    requires DistinctItems(visited) && it.id !in Seen(visited)
    ensures DistinctItems(visited + [it])
  {
    assert forall i :: 0 <= i < |visited| ==> visited[i] in visited && visited[i].id in Seen(visited);
  }

  lemma VisitKeepsGenuine(edges: seq<Edge>, roots: set<Id>, queue: seq<Item>, visited: seq<Item>)
    requires queue != [] && Genuine(edges, roots, queue, visited)
    ensures Genuine(edges, roots,
                    queue[1..] + Expand(Succs(edges, queue[0].id), queue[0].level + 1),
                    visited + [queue[0]])
  {
    var it := queue[0];
    var succs := Succs(edges, it.id);
    var next := Expand(succs, it.level + 1);
    assert it in queue;
    forall b | b in next
      ensures WalkTo(edges, roots, b.id, b.level)
    {
      assert b.id in succs;
      WalkStep(edges, roots, it.id, b.id, it.level);
    }
    assert forall b :: b in queue[1..] ==> b in queue;
  }

  lemma VisitKeepsBanded(queue: seq<Item>, visited: seq<Item>, next: seq<Item>)
    requires queue != [] && Banded(queue, visited)
    requires forall i :: 0 <= i < |next| ==> next[i].level == queue[0].level + 1
    ensures Banded(queue[1..] + next, visited + [queue[0]])
  {
    var it := queue[0];
    var queue' := queue[1..] + next;
    assert it in queue;
    forall i | 0 <= i < |queue'|
      ensures if i < |queue| - 1 then queue'[i] == queue[i + 1] else queue'[i] in next
    {}
    assert forall b :: b in queue' ==> it.level <= b.level <= it.level + 1;
    assert forall i :: 0 <= i < |visited| ==> visited[i] in visited;
  }

  lemma VisitKeepsCovering(edges: seq<Edge>, roots: set<Id>, queue: seq<Item>, visited: seq<Item>)
    requires Covering(edges, roots, queue, visited)
    requires queue != []
    ensures Covering(edges, roots,
                     queue[1..] + Expand(Succs(edges, queue[0].id), queue[0].level + 1),
                     visited + [queue[0]])
  {
    var it := queue[0];
    var next := Expand(Succs(edges, it.id), it.level + 1);
    var queue', visited' := queue[1..] + next, visited + [it];
    forall v, n | Known(queue, visited, v, n)
      ensures Known(queue', visited', v, n)
    {
      var w :| (w in visited || w in queue) && w.id == v && w.level <= n;
      assert w in visited' || w in queue';
    }
    forall w | Edge(it.id, w) in edges
      ensures Known(queue', visited', w, it.level + 1)
    {
      var succs := Succs(edges, it.id);
      var k :| 0 <= k < |succs| && succs[k] == w;
      assert next[k] in next;
    }
  }

  lemma {:induction false} BfsFrontier(edges: seq<Edge>, roots: set<Id>, queue: seq<Item>, visited: seq<Item>)
    requires Frontier(edges, roots, queue, visited)
    ensures Frontier(edges, roots, [], Bfs(edges, queue, visited))
    decreases Todo(edges, queue, visited), |queue|
  {
    if queue != [] {
      var queue', visited' := BfsStep(edges, roots, queue, visited);
      assert Frontier(edges, roots, [], Bfs(edges, queue', visited')) by {
        BfsFrontier(edges, roots, queue', visited');
      }
    }
  }

  /** One turn of the loop: the frontier stays a frontier and the work left shrinks. */
  lemma BfsStep(edges: seq<Edge>, roots: set<Id>, queue: seq<Item>, visited: seq<Item>)
    returns (queue': seq<Item>, visited': seq<Item>)
    requires queue != [] && Frontier(edges, roots, queue, visited)
    ensures Frontier(edges, roots, queue', visited')
    ensures Bfs(edges, queue, visited) == Bfs(edges, queue', visited')
    ensures || Todo(edges, queue', visited') < Todo(edges, queue, visited)
            || (Todo(edges, queue', visited') == Todo(edges, queue, visited) && |queue'| < |queue|)
  {
    var it := queue[0];
    if it.id in Seen(visited) {
      queue', visited' := queue[1..], visited;
      BfsSkip(edges, queue, visited);
      SkipKeepsFrontier(edges, roots, queue, visited);
    } else {
      queue', visited' := queue[1..] + Expand(Succs(edges, it.id), it.level + 1), visited + [it];
      BfsVisit(edges, queue, visited, queue', visited');
      VisitKeepsFrontier(edges, roots, queue, visited);
    }
  }

  /** With an empty queue, the end of every walk has been visited, at no more than its length. */
  lemma {:induction false} WalksAreVisited(edges: seq<Edge>, roots: set<Id>, visited: seq<Item>, v: Id, n: nat)
    requires Covering(edges, roots, [], visited)
    requires WalkTo(edges, roots, v, n)
    ensures Known([], visited, v, n)
    decreases n
  {
    if n > 0 {
      var u :| Edge(u, v) in edges && WalkTo(edges, roots, u, n - 1);
      WalksAreVisited(edges, roots, visited, u, n - 1);
      var it :| it in visited && it.id == u && it.level <= n - 1;
      assert Known([], visited, v, it.level + 1);
    }
  }

  // ----- roots and the traversal from them -----

  function InDegree(edges: seq<Edge>, v: Id): (n: nat)
    ensures n == 0 <==> forall e :: e in edges ==> e.dst != v
  {
    if edges == [] then 0
    else
      var e := edges[|edges| - 1];
      assert edges == edges[..|edges| - 1] + [e];
      InDegree(edges[..|edges| - 1], v) + if e.dst == v then 1 else 0
  }

  function Roots(nodes: seq<Node>, edges: seq<Edge>): (r: seq<Id>)
    ensures forall v :: v in r <==> v in IdSet(nodes) && InDegree(edges, v) == 0
  {
    if nodes == [] then []
    else
      var n := nodes[|nodes| - 1];
      assert nodes == nodes[..|nodes| - 1] + [n];
      Roots(nodes[..|nodes| - 1], edges) + if InDegree(edges, n.id) == 0 then [n.id] else []
  }

  lemma RootsAppend(nodes: seq<Node>, n: Node, edges: seq<Edge>)
    ensures Roots(nodes + [n], edges) == Roots(nodes, edges) + if InDegree(edges, n.id) == 0 then [n.id] else []
  {
    assert (nodes + [n])[..|nodes|] == nodes;
  }

  function RootSet(nodes: seq<Node>, edges: seq<Edge>): set<Id> {
    set v | v in Roots(nodes, edges)
  }

  /** What the traversal visits, in order. */
  function Reached(nodes: seq<Node>, edges: seq<Edge>): seq<Item> {
    Bfs(edges, Expand(Roots(nodes, edges), 0), [])
  }

  /** The traversal visits exactly what the roots reach, once each, with non-decreasing
      levels that are shortest distances. */
  lemma ReachedByDistance(nodes: seq<Node>, edges: seq<Edge>)
    ensures var r := Reached(nodes, edges);
            var roots := RootSet(nodes, edges);
            && DistinctItems(r)
            && SortedLevels(r)
            && (forall it :: it in r ==> Distance(edges, roots, it.id, it.level))
            && (forall v :: v in Seen(r) <==> Reachable(edges, roots, v))
  {
    var r, roots := Reached(nodes, edges), RootSet(nodes, edges);
    var start := Expand(Roots(nodes, edges), 0);
    StartFrontier(nodes, edges);
    BfsFrontier(edges, roots, start, []);
    forall v, n: nat | WalkTo(edges, roots, v, n)
      ensures Known([], r, v, n)
    {
      WalksAreVisited(edges, roots, r, v, n);
    }
    forall it | it in r
      ensures Distance(edges, roots, it.id, it.level)
    {
      forall k: nat | WalkTo(edges, roots, it.id, k)
        ensures it.level <= k
      {
        assert Known([], r, it.id, k);
        SameItem(r, it, k);
      }
    }
    forall v
      ensures v in Seen(r) <==> Reachable(edges, roots, v)
    {
      if v in Seen(r) {
        var it :| it in r && it.id == v;
        assert WalkTo(edges, roots, v, it.level);
      }
      if Reachable(edges, roots, v) {
        var n: nat :| WalkTo(edges, roots, v, n);
        assert Known([], r, v, n);
      }
    }
  }

  lemma SameItem(items: seq<Item>, it: Item, k: int)
    requires DistinctItems(items) && it in items && Known([], items, it.id, k)
    ensures it.level <= k
  {
    var other :| other in items && other.id == it.id && other.level <= k;
    var i :| 0 <= i < |items| && items[i] == it;
    var j :| 0 <= j < |items| && items[j] == other;
  }

  lemma StartFrontier(nodes: seq<Node>, edges: seq<Edge>)
    ensures Frontier(edges, RootSet(nodes, edges), Expand(Roots(nodes, edges), 0), [])
  {
    var roots, ids := RootSet(nodes, edges), Roots(nodes, edges);
    var start := Expand(ids, 0);
    forall it | it in start
      ensures WalkTo(edges, roots, it.id, it.level)
    {
      assert it.id in ids;
    }
    forall r | r in roots
      ensures Known(start, [], r, 0)
    {
      var k :| 0 <= k < |ids| && ids[k] == r;
      assert start[k] in start;
    }
  }
}
