/** `groupSubgraphs`: one group of nodes per connected part, one deployment call per group. */
module Subgraphs {
  import opened Graph

  ghost predicate Linked(edges: seq<Edge>, u: Id, v: Id) {
    Edge(u, v) in edges || Edge(v, u) in edges
  }

  ghost predicate JoinedIn(edges: seq<Edge>, u: Id, v: Id, n: nat)
    decreases n
  {
    if n == 0 then u == v
    else exists w :: Linked(edges, w, v) && JoinedIn(edges, u, w, n - 1)
  }

  /** An undirected path leads from `u` to `v`. */
  ghost predicate Joined(edges: seq<Edge>, u: Id, v: Id) {
    exists n: nat :: JoinedIn(edges, u, v, n)
  }

  lemma {:induction false} JoinedInTransitive(edges: seq<Edge>, u: Id, v: Id, w: Id, m: nat, n: nat)
    requires JoinedIn(edges, u, v, m) && JoinedIn(edges, v, w, n)
    ensures JoinedIn(edges, u, w, m + n)
    decreases n
  {
    if n > 0 {
      var x :| Linked(edges, x, w) && JoinedIn(edges, v, x, n - 1);
      JoinedInTransitive(edges, u, v, x, m, n - 1);
    }
  }

  lemma {:induction false} JoinedInSymmetric(edges: seq<Edge>, u: Id, v: Id, n: nat)
    requires JoinedIn(edges, u, v, n)
    ensures JoinedIn(edges, v, u, n)
    decreases n
  {
    if n > 0 {
      var w :| Linked(edges, w, v) && JoinedIn(edges, u, w, n - 1);
      JoinedInSymmetric(edges, u, w, n - 1);
      assert JoinedIn(edges, v, w, 1) by {
        assert Linked(edges, v, w) && JoinedIn(edges, v, v, 0);
      }
      JoinedInTransitive(edges, v, w, u, 1, n - 1);
    }
  }

  lemma JoinedTransitive(edges: seq<Edge>, u: Id, v: Id, w: Id)
    requires Joined(edges, u, v) && Joined(edges, v, w)
    ensures Joined(edges, u, w)
  {
    var m: nat :| JoinedIn(edges, u, v, m);
    var n: nat :| JoinedIn(edges, v, w, n);
    JoinedInTransitive(edges, u, v, w, m, n);
  }

  lemma JoinedSymmetric(edges: seq<Edge>, u: Id, v: Id)
    requires Joined(edges, u, v)
    ensures Joined(edges, v, u)
  {
    var n: nat :| JoinedIn(edges, u, v, n);
    JoinedInSymmetric(edges, u, v, n);
  }

  lemma JoinedStep(edges: seq<Edge>, u: Id, v: Id, w: Id)
    requires Joined(edges, u, v) && Linked(edges, v, w)
    ensures Joined(edges, u, w)
  {
    var n: nat :| JoinedIn(edges, u, v, n);
    assert JoinedIn(edges, u, w, n + 1);
  }

  lemma JoinedReflexive(edges: seq<Edge>, u: Id)
    ensures Joined(edges, u, u)
  {
    assert JoinedIn(edges, u, u, 0);
  }

  // ----- the specification -----

  /** An edge with exactly one end on the canvas. */
  ghost predicate HalfDangling(nodes: seq<Node>, edges: seq<Edge>) {
    exists e :: e in edges && (e.src in IdSet(nodes) <==> e.dst !in IdSet(nodes))
  }

  ghost function Component(nodes: seq<Node>, edges: seq<Edge>, v: Id): set<Id> {
    set u | u in IdSet(nodes) && Joined(edges, v, u)
  }

  function NodesIn(nodes: seq<Node>, ids: set<Id>): seq<Node> {
    if nodes == [] then []
    else
      var n := nodes[|nodes| - 1];
      NodesIn(nodes[..|nodes| - 1], ids) + if n.id in ids then [n] else []
  }

  lemma {:induction false} NodesInMembers(nodes: seq<Node>, ids: set<Id>)
    ensures forall n :: n in NodesIn(nodes, ids) <==> n in nodes && n.id in ids
    ensures DistinctIds(nodes) ==> DistinctIds(NodesIn(nodes, ids))
  {
    if nodes != [] {
      var n, rest := nodes[|nodes| - 1], nodes[..|nodes| - 1];
      assert nodes == rest + [n];
      NodesInMembers(rest, ids);
      var r := NodesIn(rest, ids);
      assert forall i :: 0 <= i < |r| ==> r[i] in r;
    }
  }

  /** The parts of the graph met by `todo` outside `done`, in the order of their first node. */
  ghost function Components(todo: seq<Node>, nodes: seq<Node>, edges: seq<Edge>, done: set<Id>): seq<seq<Node>> {
    if todo == [] then []
    else if todo[0].id in done then Components(todo[1..], nodes, edges, done)
    else
      var part := Component(nodes, edges, todo[0].id);
      [NodesIn(nodes, part)] + Components(todo[1..], nodes, edges, done + part)
  }

  /** `vs` contains every node joined to one of its members. */
  ghost predicate Saturated(nodes: seq<Node>, edges: seq<Edge>, vs: set<Id>) {
    forall u, v :: u in vs && v in IdSet(nodes) && Joined(edges, u, v) ==> v in vs
  }

  lemma AddComponent(nodes: seq<Node>, edges: seq<Edge>, done: set<Id>, v: Id)
    requires Saturated(nodes, edges, done)
    ensures Saturated(nodes, edges, done + Component(nodes, edges, v))
  {
    forall a, b | a in Component(nodes, edges, v) && b in IdSet(nodes) && Joined(edges, a, b)
      ensures b in Component(nodes, edges, v)
    {
      JoinedTransitive(edges, v, a, b);
    }
  }

  ghost predicate InGroup(groups: seq<seq<Node>>, n: Node) {
    exists i :: 0 <= i < |groups| && n in groups[i]
  }

  ghost predicate Separated(edges: seq<Edge>, groups: seq<seq<Node>>) {
    forall i, j, m: Node, n: Node :: 0 <= i < |groups| && 0 <= j < |groups| && m in groups[i] && n in groups[j] ==>
      (i == j <==> Joined(edges, m.id, n.id))
  }

  /** No group is empty and none repeats a node. */
  ghost predicate WellFormed(nodes: seq<Node>, groups: seq<seq<Node>>) {
    forall i :: 0 <= i < |groups| ==> groups[i] != [] && (DistinctIds(nodes) ==> DistinctIds(groups[i]))
  }

  lemma InTail(head: seq<Node>, tail: seq<seq<Node>>, n: Node)
    ensures InGroup([head] + tail, n) <==> n in head || InGroup(tail, n)
  {
    var groups := [head] + tail;
    if InGroup(tail, n) {
      var i :| 0 <= i < |tail| && n in tail[i];
      assert groups[i + 1] == tail[i];
    }
    if InGroup(groups, n) {
      var i :| 0 <= i < |groups| && n in groups[i];
      assert i > 0 ==> groups[i] == tail[i - 1];
    }
    assert groups[0] == head;
  }

  /** A node outside `done` lies in a group exactly when `todo` or its component calls for it. */
  lemma {:induction false} ComponentsCover(todo: seq<Node>, nodes: seq<Node>, edges: seq<Edge>, done: set<Id>, n: Node)
    requires n in todo && n in nodes && n.id !in done
    ensures InGroup(Components(todo, nodes, edges, done), n)
  {
    var first := todo[0];
    var part := Component(nodes, edges, first.id);
    if first.id in done {
      ComponentsCover(todo[1..], nodes, edges, done, n);
    } else {
      InTail(NodesIn(nodes, part), Components(todo[1..], nodes, edges, done + part), n);
      NodesInMembers(nodes, part);
      JoinedReflexive(edges, first.id);
      if n.id !in part {
        ComponentsCover(todo[1..], nodes, edges, done + part, n);
      }
    }
  }

  lemma {:induction false} ComponentsWellFormed(todo: seq<Node>, nodes: seq<Node>, edges: seq<Edge>, done: set<Id>)
    requires forall n :: n in todo ==> n in nodes
    ensures WellFormed(nodes, Components(todo, nodes, edges, done))
  {
    if todo != [] {
      var first := todo[0];
      var part := Component(nodes, edges, first.id);
      if first.id in done {
        ComponentsWellFormed(todo[1..], nodes, edges, done);
      } else {
        ComponentsWellFormed(todo[1..], nodes, edges, done + part);
        NodesInMembers(nodes, part);
        JoinedReflexive(edges, first.id);
        assert first in NodesIn(nodes, part);
      }
    }
  }

  /** Two grouped nodes share a group exactly when an undirected path joins them. */
  lemma {:induction false} ComponentsSeparate(todo: seq<Node>, nodes: seq<Node>, edges: seq<Edge>, done: set<Id>)
    requires Saturated(nodes, edges, done)
    requires forall n :: n in todo ==> n in nodes
    ensures Separated(edges, Components(todo, nodes, edges, done))
    ensures forall n :: InGroup(Components(todo, nodes, edges, done), n) ==> n in nodes && n.id !in done
  {
    if todo != [] {
      var v := todo[0].id;
      if v in done {
        ComponentsSeparate(todo[1..], nodes, edges, done);
      } else {
        var part := Component(nodes, edges, v);
        var tail := Components(todo[1..], nodes, edges, done + part);
        assert todo[0] in nodes;
        AddComponent(nodes, edges, done, v);
        ComponentsSeparate(todo[1..], nodes, edges, done + part);
        HeadSeparated(nodes, edges, done, v, tail);
        forall n | InGroup([NodesIn(nodes, part)] + tail, n)
          ensures n in nodes && n.id !in done
        {
          InTail(NodesIn(nodes, part), tail, n);
          NodesInMembers(nodes, part);
        }
      }
    }
  }

  ghost function Groups(nodes: seq<Node>, edges: seq<Edge>): seq<seq<Node>> {
    Components(nodes, nodes, edges, {})
  }

  /** The groups hold each node exactly once: in one group only, as two groups have no
      joined members and no group repeats a node; and groups follow undirected connection. */
  lemma GroupsPartition(nodes: seq<Node>, edges: seq<Edge>)
    ensures forall n :: n in nodes <==> InGroup(Groups(nodes, edges), n)
    ensures WellFormed(nodes, Groups(nodes, edges))
    ensures Separated(edges, Groups(nodes, edges))
  {
    ComponentsWellFormed(nodes, nodes, edges, {});
    ComponentsSeparate(nodes, nodes, edges, {});
    forall n | n in nodes
      ensures InGroup(Groups(nodes, edges), n)
    {
      ComponentsCover(nodes, nodes, edges, {}, n);
    }
  }

  lemma HeadSeparated(nodes: seq<Node>, edges: seq<Edge>, done: set<Id>, v: Id, tail: seq<seq<Node>>)
    requires v in IdSet(nodes) && v !in done
    requires Saturated(nodes, edges, done)
    requires Separated(edges, tail)
    requires forall n :: InGroup(tail, n) ==> n in nodes && n.id !in done + Component(nodes, edges, v)
    ensures Separated(edges, [NodesIn(nodes, Component(nodes, edges, v))] + tail)
    ensures forall n :: n in NodesIn(nodes, Component(nodes, edges, v)) ==> n.id !in done
  {
    var part := Component(nodes, edges, v);
    var head := NodesIn(nodes, part);
    var groups := [head] + tail;
    NodesInMembers(nodes, part);
    forall i, j, m: Node, n: Node | 0 <= i < |groups| && 0 <= j < |groups| && m in groups[i] && n in groups[j]
      ensures i == j <==> Joined(edges, m.id, n.id)
    {
      if i == 0 {
        JoinedSymmetric(edges, v, m.id);
      }
      if j == 0 {
        JoinedSymmetric(edges, v, n.id);
      }
      if i == 0 && j == 0 {
        JoinedTransitive(edges, m.id, v, n.id);
      } else if i == 0 && Joined(edges, m.id, n.id) {
        JoinedTransitive(edges, v, m.id, n.id);
      } else if j == 0 && Joined(edges, m.id, n.id) {
        JoinedSymmetric(edges, m.id, n.id);
        JoinedTransitive(edges, v, n.id, m.id);
      }
    }
    forall n | n in head
      ensures n.id !in done
    {
      if n.id in done {
        JoinedSymmetric(edges, v, n.id);
      }
    }
  }

  // ----- the loops of the source -----

  function AddTo(neighbours: seq<Id>, v: Id): (r: seq<Id>)
    ensures forall u :: u in r <==> u in neighbours || u == v
  {
    if v in neighbours then neighbours else neighbours + [v]
  }

  /** Neighbour sets in insertion order; an end point that is not a node gets none. */
  method BuildNeighbours(nodes: seq<Node>, edges: seq<Edge>) returns (adj: map<Id, seq<Id>>)
    ensures adj.Keys == IdSet(nodes)
    ensures forall u, v :: u in adj ==> (v in adj[u] <==> Linked(edges, u, v))
  {
    adj := map[];
    for i := 0 to |nodes|
      invariant adj.Keys == IdSet(nodes[..i])
      invariant forall v :: v in adj ==> adj[v] == []
    {
      adj := adj[nodes[i].id := []];
      assert nodes[..i + 1] == nodes[..i] + [nodes[i]];
    }
    assert nodes[..|nodes|] == nodes;
    for i := 0 to |edges|
      invariant adj.Keys == IdSet(nodes)
      invariant forall u, v :: u in adj ==> (v in adj[u] <==> Linked(edges[..i], u, v))
    {
      var e := edges[i];
      assert edges[..i + 1] == edges[..i] + [e];
      if e.src in adj {
        adj := adj[e.src := AddTo(adj[e.src], e.dst)];
      }
      if e.dst in adj {
        adj := adj[e.dst := AddTo(adj[e.dst], e.src)];
      }
    }
    assert edges[..|edges|] == edges;
  }

  /** Members of `visited` have all their neighbours in `visited`. */
  ghost predicate LinkClosed(edges: seq<Edge>, visited: set<Id>) {
    forall u, v :: u in visited && Linked(edges, u, v) ==> v in visited
  }

  lemma {:induction false} LinkClosedJoined(edges: seq<Edge>, visited: set<Id>, u: Id, v: Id, n: nat)
    requires LinkClosed(edges, visited) && u in visited && JoinedIn(edges, u, v, n)
    ensures v in visited
    decreases n
  {
    if n > 0 {
      var w :| Linked(edges, w, v) && JoinedIn(edges, u, w, n - 1);
      LinkClosedJoined(edges, visited, u, w, n - 1);
    }
  }

  /** What the stack loop keeps: everything found is joined to the seed, and every neighbour
      of the group is visited or waiting. */
  ghost predicate Flooding(nodes: seq<Node>, edges: seq<Edge>, seed: Id, before: set<Id>,
                           visited: set<Id>, group: seq<Id>, stack: seq<Id>)
  {
    && visited == before + (set v | v in group)
    && visited <= IdSet(nodes)
    && (forall v :: v in group ==> v !in before && Joined(edges, seed, v))
    && (forall v :: v in stack ==> Joined(edges, seed, v) && (v in IdSet(nodes) || HalfDangling(nodes, edges)))
    && (forall u, v :: u in group && Linked(edges, u, v) ==> v in visited || v in stack)
    && (seed in visited || seed in stack)
  }

  method PushNeighbours(stack0: seq<Id>, neighbours: seq<Id>, visited: set<Id>) returns (stack: seq<Id>)
    ensures forall v :: v in stack <==> v in stack0 || (v in neighbours && v !in visited)
  {
    stack := stack0;
    for j := 0 to |neighbours|
      invariant forall v :: v in stack <==> v in stack0 || (v in neighbours[..j] && v !in visited)
    {
      if neighbours[j] !in visited {
        stack := stack + [neighbours[j]];
      }
    }
    assert neighbours[..|neighbours|] == neighbours;
  }

  lemma VisitKeepsFlooding(nodes: seq<Node>, edges: seq<Edge>, seed: Id, before: set<Id>,
                           visited: set<Id>, group: seq<Id>, stack: seq<Id>, rest: seq<Id>, id: Id, stack': seq<Id>)
    requires Flooding(nodes, edges, seed, before, visited, group, stack)
    requires stack == rest + [id] && id in IdSet(nodes) && id !in visited
    requires forall v :: v in stack' <==> v in rest || (Linked(edges, id, v) && v !in visited + {id})
    ensures Flooding(nodes, edges, seed, before, visited + {id}, group + [id], stack')
  {
    assert id in stack;
    forall v | v in stack'
      ensures Joined(edges, seed, v) && (v in IdSet(nodes) || HalfDangling(nodes, edges))
    {
      if v in rest {
        assert v in stack;
      } else {
        JoinedStep(edges, seed, id, v);
        assert Edge(id, v) in edges || Edge(v, id) in edges;
      }
    }
  }

  lemma SkipKeepsFlooding(nodes: seq<Node>, edges: seq<Edge>, seed: Id, before: set<Id>,
                          visited: set<Id>, group: seq<Id>, stack: seq<Id>, rest: seq<Id>, id: Id)
    requires Flooding(nodes, edges, seed, before, visited, group, stack)
    requires stack == rest + [id] && id in visited
    ensures Flooding(nodes, edges, seed, before, visited, group, rest)
  {
    assert forall v :: v in rest ==> v in stack;
  }

  /** With the stack empty, the group is the component of the seed. */
  lemma FloodedComponent(nodes: seq<Node>, edges: seq<Edge>, seed: Id,
                         before: set<Id>, visited: set<Id>, group: seq<Id>)
    requires Flooding(nodes, edges, seed, before, visited, group, [])
    requires LinkClosed(edges, before) && seed !in before
    ensures LinkClosed(edges, visited)
    ensures (set v | v in group) == Component(nodes, edges, seed)
  {
    forall v | Joined(edges, seed, v)
      ensures v in group
    {
      var n: nat :| JoinedIn(edges, seed, v, n);
      LinkClosedJoined(edges, visited, seed, v, n);
      if v in before {
        JoinedInSymmetric(edges, seed, v, n);
        LinkClosedJoined(edges, before, v, seed, n);
      }
    }
    assert forall v :: v in group ==> v in visited;
  }

  /** The inner stack loop; it fails on an id without a neighbour set, as the `for..of` of
      the source does. */
  method Flood(nodes: seq<Node>, ghost edges: seq<Edge>, adj: map<Id, seq<Id>>, seed: Id, visited0: set<Id>)
    returns (ok: bool, visited: set<Id>, group: seq<Id>)
    requires adj.Keys == IdSet(nodes)
    requires forall u, v :: u in adj ==> (v in adj[u] <==> Linked(edges, u, v))
    requires seed in IdSet(nodes) && seed !in visited0
    requires visited0 <= IdSet(nodes) && LinkClosed(edges, visited0)
    ensures ok ==> visited <= IdSet(nodes) && LinkClosed(edges, visited)
    ensures ok ==> visited == visited0 + Component(nodes, edges, seed)
    ensures ok ==> (set v | v in group) == Component(nodes, edges, seed)
    ensures !ok ==> HalfDangling(nodes, edges)
  {
    visited, group := visited0, [];
    var stack := [seed];
    JoinedReflexive(edges, seed);
    while stack != []
      invariant Flooding(nodes, edges, seed, visited0, visited, group, stack)
      decreases IdSet(nodes) - visited, |stack|
    {
      var id := stack[|stack| - 1];
      ghost var full := stack;
      stack := stack[..|stack| - 1];
      assert full == stack + [id] && id in full;
      if id in visited {
        SkipKeepsFlooding(nodes, edges, seed, visited0, visited, group, full, stack, id);
      } else if id !in adj {
        return false, visited, group;
      } else {
        ghost var rest := stack;
        stack := PushNeighbours(stack, adj[id], visited + {id});
        VisitKeepsFlooding(nodes, edges, seed, visited0, visited, group, full, rest, id, stack);
        visited := visited + {id};
        group := group + [id];
      }
    }
    FloodedComponent(nodes, edges, seed, visited0, visited, group);
    ok := true;
  }

  method FilterNodes(nodes: seq<Node>, group: seq<Id>) returns (r: seq<Node>)
    ensures r == NodesIn(nodes, set v | v in group)
  {
    r := [];
    for i := 0 to |nodes|
      invariant r == NodesIn(nodes[..i], set v | v in group)
    {
      assert nodes[..i + 1][..i] == nodes[..i];
      if nodes[i].id in group {
        r := r + [nodes[i]];
      }
    }
    assert nodes[..|nodes|] == nodes;
  }

  datatype Outcome = Success(groups: seq<seq<Node>>) | TypeError

  /** Succeeds exactly when no edge has a single end on the canvas, so on every closed graph;
      the result is then the partition into connected parts. */
  method GroupSubgraphs(nodes: seq<Node>, edges: seq<Edge>) returns (r: Outcome)
    ensures r.TypeError? <==> HalfDangling(nodes, edges)
    ensures r.Success? ==> r.groups == Groups(nodes, edges)
  {
    var adj := BuildNeighbours(nodes, edges);
    var visited: set<Id> := {};
    var groups: seq<seq<Node>> := [];
    for i := 0 to |nodes|
      invariant visited <= IdSet(nodes) && LinkClosed(edges, visited)
      invariant forall k :: 0 <= k < i ==> nodes[k].id in visited
      invariant groups + Components(nodes[i..], nodes, edges, visited) == Groups(nodes, edges)
    {
      assert nodes[i] in nodes && nodes[i..][1..] == nodes[i + 1..];
      if nodes[i].id !in visited {
        ghost var part := Component(nodes, edges, nodes[i].id);
        JoinedReflexive(edges, nodes[i].id);
        var ok, after, group := Flood(nodes, edges, adj, nodes[i].id, visited);
        if !ok {
          return TypeError;
        }
        var g := FilterNodes(nodes, group);
        assert groups + ([g] + Components(nodes[i + 1..], nodes, edges, after))
            == (groups + [g]) + Components(nodes[i + 1..], nodes, edges, after);
        visited, groups := after, groups + [g];
      }
    }
    assert nodes[|nodes|..] == [];
    NoHalfDangling(nodes, edges, visited);
    r := Success(groups);
  }

  lemma NoHalfDangling(nodes: seq<Node>, edges: seq<Edge>, visited: set<Id>)
    requires visited == IdSet(nodes) && LinkClosed(edges, visited)
    ensures !HalfDangling(nodes, edges)
  {
    forall e | e in edges
      ensures e.src in visited <==> e.dst in visited
    {
      assert Linked(edges, e.src, e.dst) && Linked(edges, e.dst, e.src) by {
        assert e == Edge(e.src, e.dst);
      }
    }
  }

}
