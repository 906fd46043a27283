/** The order of `walkOrder` among vertices at the same distance, from the graph alone. */
module Precedence {
  import opened Graph
  import opened Traversal
  import opened WalkOrder

  /** `p` feeds `v` and lies at distance `d` from the roots. */
  ghost predicate ParentAt(nodes: seq<Node>, edges: seq<Edge>, d: nat, p: Id, v: Id) {
    Edge(p, v) in edges && Distance(edges, RootSet(nodes, edges), p, d)
  }

  /** At distance 0, the root listed first goes first; farther away, the parents decide. */
  ghost predicate Precedes(nodes: seq<Node>, edges: seq<Edge>, d: nat, u: Id, w: Id)
    decreases d, 0
  {
    if d == 0 then IndexOf(Roots(nodes, edges), u) < IndexOf(Roots(nodes, edges), w)
    else FedEarlier(nodes, edges, d - 1, u, w)
  }

  /** Some parent of `u` at distance `e` sends `u` before `w`. */
  ghost predicate FedEarlier(nodes: seq<Node>, edges: seq<Edge>, e: nat, u: Id, w: Id)
    decreases e, 2
  {
    exists p :: ParentAt(nodes, edges, e, p, u) && Beats(nodes, edges, e, p, u, w)
  }

  /** `p` precedes every parent of `w`, or is one that names `u` before `w`. */
  ghost predicate Beats(nodes: seq<Node>, edges: seq<Edge>, e: nat, p: Id, u: Id, w: Id)
    decreases e, 1
  {
    forall q :: ParentAt(nodes, edges, e, q, w) ==>
                  Precedes(nodes, edges, e, p, q) || (p == q && NamedEarlier(edges, p, u, w))
  }

  /** The edges of `p` name `u` before `w`. */
  ghost predicate NamedEarlier(edges: seq<Edge>, p: Id, u: Id, w: Id) {
    IndexOf(Succs(edges, p), u) < IndexOf(Succs(edges, p), w)
  }

  // ----- first positions -----

  lemma {:induction false} IndexInConcat(a: seq<Id>, b: seq<Id>, v: Id)
    ensures IndexOf(a + b, v) == if v in a then IndexOf(a, v) else |a| + IndexOf(b, v)
  {
    if a == [] {
      assert a + b == b;
    } else {
      assert (a + b)[1..] == a[1..] + b;
      IndexInConcat(a[1..], b, v);
    }
  }

  /** The elements of `s` by first occurrence. */
  function Firsts(s: seq<Id>): (r: seq<Id>)
    ensures forall v :: v in r <==> v in s
  {
    if s == [] then []
    else
      var front, v := s[..|s| - 1], s[|s| - 1];
      assert s == front + [v];
      Firsts(front) + if v in front then [] else [v]
  }

  lemma FirstsAppend(s: seq<Id>, v: Id)
    ensures Firsts(s + [v]) == Firsts(s) + if v in s then [] else [v]
  {
    assert (s + [v])[..|s + [v]| - 1] == s;
  }

  lemma {:induction false} FirstsSorted(s: seq<Id>, i: nat, j: nat)
    requires i < j < |Firsts(s)|
    ensures IndexOf(s, Firsts(s)[i]) < IndexOf(s, Firsts(s)[j])
  {
    var front, v := s[..|s| - 1], s[|s| - 1];
    assert s == front + [v];
    var r := Firsts(front);
    IndexInConcat(front, [v], Firsts(s)[i]);
    IndexInConcat(front, [v], Firsts(s)[j]);
    assert Firsts(s)[i] == r[i] && r[i] in front;
    if j < |r| {
      assert r[j] in front;
      FirstsSorted(front, i, j);
    }
  }

  // ----- everything ever queued -----

  /** All the queue has held once `visited` are visited: the roots, then their targets in turn. */
  function Log(start: seq<Id>, edges: seq<Edge>, visited: seq<Item>): seq<Id> {
    if visited == [] then start
    else Log(start, edges, visited[..|visited| - 1]) + Succs(edges, visited[|visited| - 1].id)
  }

  lemma LogGrows(start: seq<Id>, edges: seq<Edge>, visited: seq<Item>, it: Item)
    ensures Log(start, edges, visited + [it]) == Log(start, edges, visited) + Succs(edges, it.id)
  {
    assert (visited + [it])[..|visited|] == visited;
  }

  /** The visited vertices are those ever queued, by first occurrence. */
  lemma {:induction false} BfsVisitsFirsts(start: seq<Id>, edges: seq<Edge>,
                                           popped: seq<Id>, queue: seq<Item>, visited: seq<Item>)
    requires popped + ItemIds(queue) == Log(start, edges, visited)
    requires Firsts(popped) == ItemIds(visited)
    ensures var r := Bfs(edges, queue, visited);
            Firsts(Log(start, edges, r)) == ItemIds(r)
    decreases Todo(edges, queue, visited), |queue|
  {
    if queue == [] {
      assert popped + [] == popped;
    } else {
      var popped', queue', visited' := PopStep(start, edges, popped, queue, visited);
      BfsVisitsFirsts(start, edges, popped', queue', visited');
    }
  }

  lemma PopStep(start: seq<Id>, edges: seq<Edge>, popped: seq<Id>, queue: seq<Item>, visited: seq<Item>)
    returns (popped': seq<Id>, queue': seq<Item>, visited': seq<Item>)
    requires queue != [] && popped + ItemIds(queue) == Log(start, edges, visited)
    requires Firsts(popped) == ItemIds(visited)
    ensures popped' + ItemIds(queue') == Log(start, edges, visited')
    ensures Firsts(popped') == ItemIds(visited')
    ensures Bfs(edges, queue', visited') == Bfs(edges, queue, visited)
    ensures || Todo(edges, queue', visited') < Todo(edges, queue, visited)
            || (Todo(edges, queue', visited') <= Todo(edges, queue, visited) && |queue'| < |queue|)
  {
    var it := queue[0];
    popped' := popped + [it.id];
    assert ItemIds(queue) == [it.id] + ItemIds(queue[1..]);
    assert it.id in popped <==> it.id in ItemIds(visited);
    if it.id in Seen(visited) {
      queue', visited' := queue[1..], visited;
      FirstsAppend(popped, it.id);
      BfsSkip(edges, queue, visited);
    } else {
      queue', visited' := queue[1..] + Expand(Succs(edges, it.id), it.level + 1), visited + [it];
      BfsVisit(edges, queue, visited, queue', visited');
      PopNew(start, edges, popped, queue, visited);
    }
  }

  lemma PopNew(start: seq<Id>, edges: seq<Edge>, popped: seq<Id>, queue: seq<Item>, visited: seq<Item>)
    requires queue != [] && popped + ItemIds(queue) == Log(start, edges, visited)
    requires Firsts(popped) == ItemIds(visited) && queue[0].id !in Seen(visited)
    ensures popped + [queue[0].id] + ItemIds(queue[1..] + Expand(Succs(edges, queue[0].id), queue[0].level + 1))
         == Log(start, edges, visited + [queue[0]])
    ensures Firsts(popped + [queue[0].id]) == ItemIds(visited + [queue[0]])
  {
    var it := queue[0];
    FirstsOfPop(popped, visited, it);
    LogGrows(start, edges, visited, it);
    assert ItemIds(queue)[0] == it.id;
    assert ItemIds(queue)[1..] == ItemIds(queue[1..]);
    ItemIdsGrow(queue[1..], Succs(edges, it.id), it.level + 1);
    MoveAcross(popped, it.id, ItemIds(queue[1..]), Succs(edges, it.id), ItemIds(queue));
  }

  lemma FirstsOfPop(popped: seq<Id>, visited: seq<Item>, it: Item)
    requires Firsts(popped) == ItemIds(visited) && it.id !in Seen(visited)
    ensures Firsts(popped + [it.id]) == ItemIds(visited + [it])
  {
    assert it.id in popped <==> it.id in ItemIds(visited);
    FirstsAppend(popped, it.id);
    SeenGrows(visited, it);
  }

  lemma MoveAcross(popped: seq<Id>, v: Id, rest: seq<Id>, succs: seq<Id>, ids: seq<Id>)
    requires |ids| == |rest| + 1 && ids[0] == v && ids[1..] == rest
    ensures popped + [v] + (rest + succs) == (popped + ids) + succs
  {
    assert ids == [v] + rest;
  }

  lemma ReachedFirsts(nodes: seq<Node>, edges: seq<Edge>)
    ensures var r := Reached(nodes, edges);
            Firsts(Log(Roots(nodes, edges), edges, r)) == ItemIds(r)
  {
    var start := Roots(nodes, edges);
    assert [] + ItemIds(Expand(start, 0)) == start;
    BfsVisitsFirsts(start, edges, [], Expand(start, 0), []);
  }

  // ----- where a vertex is first queued -----

  /** `v` is first queued as a target of the `k`-th visited vertex. */
  ghost predicate QueuedBy(start: seq<Id>, edges: seq<Edge>, visited: seq<Item>, v: Id, k: nat) {
    && k < |visited|
    && v !in Log(start, edges, visited[..k])
    && v in Succs(edges, visited[k].id)
    && IndexOf(Log(start, edges, visited), v)
       == |Log(start, edges, visited[..k])| + IndexOf(Succs(edges, visited[k].id), v)
  }

  lemma {:induction false} FirstQueued(start: seq<Id>, edges: seq<Edge>, visited: seq<Item>, v: Id) returns (k: nat)
    requires v in Log(start, edges, visited) && v !in start
    ensures QueuedBy(start, edges, visited, v, k)
  {
    var n := |visited| - 1;
    var front := visited[..n];
    IndexInConcat(Log(start, edges, front), Succs(edges, visited[n].id), v);
    if v in Log(start, edges, front) {
      k := FirstQueued(start, edges, front, v);
      assert front[..k] == visited[..k];
    } else {
      k := n;
    }
  }

  /** The log of a prefix is a prefix of the log. */
  lemma {:induction false} LogPrefix(start: seq<Id>, edges: seq<Edge>, visited: seq<Item>, k: nat)
    requires k <= |visited|
    ensures Log(start, edges, visited[..k]) <= Log(start, edges, visited)
    decreases |visited|
  {
    if k < |visited| {
      var front := visited[..|visited| - 1];
      assert front[..k] == visited[..k];
      LogPrefix(start, edges, front, k);
    } else {
      assert visited[..k] == visited;
    }
  }

  lemma BlockEnds(start: seq<Id>, edges: seq<Edge>, visited: seq<Item>, k: nat, m: nat)
    requires k < m <= |visited|
    ensures |Log(start, edges, visited[..k])| + |Succs(edges, visited[k].id)| <= |Log(start, edges, visited[..m])|
    ensures forall v :: v in Succs(edges, visited[k].id) ==> v in Log(start, edges, visited[..m])
  {
    var short, long := Log(start, edges, visited[..k + 1]), Log(start, edges, visited[..m]);
    assert visited[..k + 1] == visited[..k] + [visited[k]];
    LogGrows(start, edges, visited[..k], visited[k]);
    assert visited[..m][..k + 1] == visited[..k + 1];
    LogPrefix(start, edges, visited[..m], k + 1);
    assert forall v :: v in Succs(edges, visited[k].id) ==> v in short;
    assert forall i :: 0 <= i < |short| ==> short[i] == long[i] && long[i] in long;
  }

  /** No earlier visited vertex feeds `v`. */
  lemma QueuedByFirstParent(start: seq<Id>, edges: seq<Edge>, visited: seq<Item>, v: Id, k: nat, a: nat)
    requires QueuedBy(start, edges, visited, v, k)
    requires a < |visited| && Edge(visited[a].id, v) in edges
    ensures k <= a
  {
    if a < k {
      BlockEnds(start, edges, visited, a, k);
    }
  }

  lemma QueuedInOrder(start: seq<Id>, edges: seq<Edge>, visited: seq<Item>, u: Id, k: nat, w: Id, m: nat)
    requires QueuedBy(start, edges, visited, u, k) && QueuedBy(start, edges, visited, w, m)
    ensures IndexOf(Log(start, edges, visited), u) < IndexOf(Log(start, edges, visited), w)
            <==> || k < m
                 || (k == m && NamedEarlier(edges, visited[k].id, u, w))
  {
    if k < m {
      BlockEnds(start, edges, visited, k, m);
    } else if m < k {
      BlockEnds(start, edges, visited, m, k);
    }
  }

  // ----- the traversal is sorted by precedence -----

  /** What is needed of the traversal `r`: it goes by distance and visits by first occurrence. */
  ghost predicate Traversed(nodes: seq<Node>, edges: seq<Edge>, r: seq<Item>) {
    && SortedLevels(r)
    && (forall i :: 0 <= i < |r| ==> Distance(edges, RootSet(nodes, edges), r[i].id, r[i].level))
    && (forall v :: Reachable(edges, RootSet(nodes, edges), v) ==> Listed(r, v))
    && Firsts(Log(Roots(nodes, edges), edges, r)) == ItemIds(r)
  }

  ghost predicate Listed(r: seq<Item>, v: Id) {
    exists i :: 0 <= i < |r| && r[i].id == v
  }

  lemma ReachedTraversed(nodes: seq<Node>, edges: seq<Edge>)
    ensures Traversed(nodes, edges, Reached(nodes, edges))
  {
    var r := Reached(nodes, edges);
    ReachedByDistance(nodes, edges);
    ReachedFirsts(nodes, edges);
    forall i | 0 <= i < |r|
      ensures Distance(edges, RootSet(nodes, edges), r[i].id, r[i].level)
    {
      assert r[i] in r;
    }
    forall v | Reachable(edges, RootSet(nodes, edges), v)
      ensures Listed(r, v)
    {
      var it :| it in r && it.id == v;
    }
  }

  lemma PlaceOf(nodes: seq<Node>, edges: seq<Edge>, r: seq<Item>, v: Id, d: nat) returns (i: nat)
    requires Traversed(nodes, edges, r) && Distance(edges, RootSet(nodes, edges), v, d)
    ensures i < |r| && r[i] == Item(v, d)
  {
    assert Reachable(edges, RootSet(nodes, edges), v);
    assert Listed(r, v);
    i :| 0 <= i < |r| && r[i].id == v;
    DistanceUnique(edges, RootSet(nodes, edges), v, d, r[i].level);
  }

  lemma OrderedByFirst(nodes: seq<Node>, edges: seq<Edge>, r: seq<Item>, i: nat, j: nat)
    requires Traversed(nodes, edges, r) && i < |r| && j < |r|
    ensures var log := Log(Roots(nodes, edges), edges, r);
            && r[i].id in log
            && (i < j <==> IndexOf(log, r[i].id) < IndexOf(log, r[j].id))
  {
    var log := Log(Roots(nodes, edges), edges, r);
    assert ItemIds(r)[i] in Firsts(log);
    if i < j {
      FirstsSorted(log, i, j);
    } else if j < i {
      FirstsSorted(log, j, i);
    }
  }

  /** `r[k]` is the first parent of `r[i]` that is visited, and lies at distance `e`. */
  ghost predicate FirstParent(nodes: seq<Node>, edges: seq<Edge>, r: seq<Item>, e: nat, i: nat, k: nat) {
    && i < |r|
    && QueuedBy(Roots(nodes, edges), edges, r, r[i].id, k)
    && r[k].level == e && ParentAt(nodes, edges, e, r[k].id, r[i].id)
  }

  /** A vertex away from the roots has a first parent one step closer. */
  lemma HasFirstParent(nodes: seq<Node>, edges: seq<Edge>, r: seq<Item>, e: nat, i: nat) returns (k: nat)
    requires Traversed(nodes, edges, r) && i < |r| && r[i].level == e + 1
    ensures FirstParent(nodes, edges, r, e, i, k)
  {
    var roots, v := RootSet(nodes, edges), r[i].id;
    OrderedByFirst(nodes, edges, r, i, i);
    assert !WalkTo(edges, roots, v, 0);
    k := FirstQueued(Roots(nodes, edges), edges, r, v);
    WalkStep(edges, roots, r[k].id, v, r[k].level);
    var a := NearParent(nodes, edges, r, e, i);
    QueuedByFirstParent(Roots(nodes, edges), edges, r, v, k, a);
  }

  lemma NearParent(nodes: seq<Node>, edges: seq<Edge>, r: seq<Item>, e: nat, i: nat) returns (a: nat)
    requires Traversed(nodes, edges, r) && i < |r| && r[i].level == e + 1
    ensures a < |r| && r[a].level <= e && Edge(r[a].id, r[i].id) in edges
  {
    var roots := RootSet(nodes, edges);
    assert WalkTo(edges, roots, r[i].id, e + 1);
    var p :| Edge(p, r[i].id) in edges && WalkTo(edges, roots, p, e);
    var c := HasDistance(edges, roots, p, e);
    a := PlaceOf(nodes, edges, r, p, c);
  }

  /** Of two vertices at distance `e + 1`, the one with the earlier first parent comes first,
      and of two with the same first parent the one its edges name first. */
  ghost predicate ParentsInOrder(edges: seq<Edge>, r: seq<Item>, i: nat, k: nat, j: nat, m: nat)
    requires i < |r| && j < |r| && k < |r|
  {
    k < m || (k == m && NamedEarlier(edges, r[k].id, r[i].id, r[j].id))
  }

  lemma OrderedByParents(nodes: seq<Node>, edges: seq<Edge>, r: seq<Item>, e: nat, i: nat, k: nat, j: nat, m: nat)
    requires Traversed(nodes, edges, r)
    requires FirstParent(nodes, edges, r, e, i, k) && FirstParent(nodes, edges, r, e, j, m)
    ensures i < j <==> ParentsInOrder(edges, r, i, k, j, m)
  {
    OrderedByFirst(nodes, edges, r, i, j);
    QueuedInOrder(Roots(nodes, edges), edges, r, r[i].id, k, r[j].id, m);
  }

  /** Among vertices at the same distance, the traversal goes by precedence. */
  lemma {:induction false} PrecedesIsOrder(nodes: seq<Node>, edges: seq<Edge>, r: seq<Item>, d: nat, i: nat, j: nat)
    requires Traversed(nodes, edges, r) && i < |r| && j < |r|
    requires r[i].level == d && r[j].level == d
    ensures Precedes(nodes, edges, d, r[i].id, r[j].id) <==> i < j
    decreases d, 0
  {
    if d == 0 {
      OrderedByFirst(nodes, edges, r, i, j);
      RootsFirst(nodes, edges, r, i);
      RootsFirst(nodes, edges, r, j);
    } else {
      FedEarlierIsOrder(nodes, edges, r, d - 1, i, j);
    }
  }

  lemma RootsFirst(nodes: seq<Node>, edges: seq<Edge>, r: seq<Item>, i: nat)
    requires Traversed(nodes, edges, r) && i < |r| && r[i].level == 0
    ensures IndexOf(Log(Roots(nodes, edges), edges, r), r[i].id) == IndexOf(Roots(nodes, edges), r[i].id)
  {
    var start := Roots(nodes, edges);
    assert WalkTo(edges, RootSet(nodes, edges), r[i].id, 0);
    assert r[..0] == [];
    LogPrefix(start, edges, r, 0);
    var log := Log(start, edges, r);
    assert log == start + log[|start|..];
    IndexInConcat(start, log[|start|..], r[i].id);
  }

  lemma FedEarlierIsOrder(nodes: seq<Node>, edges: seq<Edge>, r: seq<Item>, e: nat, i: nat, j: nat)
    requires Traversed(nodes, edges, r) && i < |r| && j < |r|
    requires r[i].level == e + 1 && r[j].level == e + 1
    ensures FedEarlier(nodes, edges, e, r[i].id, r[j].id) <==> i < j
    decreases e, 3
  {
    var k := HasFirstParent(nodes, edges, r, e, i);
    var m := HasFirstParent(nodes, edges, r, e, j);
    OrderedByParents(nodes, edges, r, e, i, k, j, m);
    if i < j {
      EarlierBeats(nodes, edges, r, e, i, k, j, m);
    }
    if p :| ParentAt(nodes, edges, e, p, r[i].id) && Beats(nodes, edges, e, p, r[i].id, r[j].id) {
      BeatsIsEarlier(nodes, edges, r, e, i, k, j, m, p);
    }
  }

  lemma EarlierBeats(nodes: seq<Node>, edges: seq<Edge>, r: seq<Item>, e: nat, i: nat, k: nat, j: nat, m: nat)
    requires Traversed(nodes, edges, r)
    requires FirstParent(nodes, edges, r, e, i, k) && FirstParent(nodes, edges, r, e, j, m)
    requires ParentsInOrder(edges, r, i, k, j, m)
    ensures Beats(nodes, edges, e, r[k].id, r[i].id, r[j].id)
    decreases e, 2
  {
    var p, u, w := r[k].id, r[i].id, r[j].id;
    forall q | ParentAt(nodes, edges, e, q, w)
      ensures Precedes(nodes, edges, e, p, q) || (p == q && NamedEarlier(edges, p, u, w))
    {
      var b := PlaceOf(nodes, edges, r, q, e);
      QueuedByFirstParent(Roots(nodes, edges), edges, r, w, m, b);
      PrecedesIsOrder(nodes, edges, r, e, k, b);
    }
  }

  lemma BeatsIsEarlier(nodes: seq<Node>, edges: seq<Edge>, r: seq<Item>, e: nat, i: nat, k: nat, j: nat, m: nat, p: Id)
    requires Traversed(nodes, edges, r)
    requires FirstParent(nodes, edges, r, e, i, k) && FirstParent(nodes, edges, r, e, j, m)
    requires ParentAt(nodes, edges, e, p, r[i].id) && Beats(nodes, edges, e, p, r[i].id, r[j].id)
    ensures ParentsInOrder(edges, r, i, k, j, m)
    decreases e, 2
  {
    var a := PlaceOf(nodes, edges, r, p, e);
    QueuedByFirstParent(Roots(nodes, edges), edges, r, r[i].id, k, a);
    assert Precedes(nodes, edges, e, p, r[m].id) || (p == r[m].id && NamedEarlier(edges, p, r[i].id, r[j].id));
    PrecedesIsOrder(nodes, edges, r, e, a, m);
    if p == r[m].id {
      PlacedOnce(nodes, edges, r, a, m);
    }
  }

  lemma PlacedOnce(nodes: seq<Node>, edges: seq<Edge>, r: seq<Item>, a: nat, m: nat)
    requires Traversed(nodes, edges, r) && a < |r| && m < |r| && r[a].id == r[m].id
    ensures a == m
  {
    OrderedByFirst(nodes, edges, r, a, m);
    OrderedByFirst(nodes, edges, r, m, a);
  }

  /** The order of the reachable vertices, from the graph alone: by distance, and at the same
      distance by precedence. */
  lemma ReachedByPrecedence(nodes: seq<Node>, edges: seq<Edge>, i: nat, j: nat)
    requires i < |Reached(nodes, edges)| && j < |Reached(nodes, edges)|
    ensures var r := Reached(nodes, edges);
            i < j <==> || r[i].level < r[j].level
                       || (r[i].level == r[j].level && Precedes(nodes, edges, r[i].level, r[i].id, r[j].id))
  {
    var r := Reached(nodes, edges);
    ReachedTraversed(nodes, edges);
    if r[i].level == r[j].level {
      PrecedesIsOrder(nodes, edges, r, r[i].level, i, j);
    }
  }
}
