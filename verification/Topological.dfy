/** When the "topo walk" is a topological order. */
module Topological {
  import opened Graph
  import opened Traversal
  import opened WalkOrder
  import opened Precedence
  import opened Detection

  // ----- the reachable part of the order -----

  /** The edge from `u`, at distance `d`, leads one step farther, or across to a vertex that
      `u` precedes. */
  ghost predicate Advances(nodes: seq<Node>, edges: seq<Edge>, u: Id, d: nat, w: Id) {
    || Distance(edges, RootSet(nodes, edges), w, d + 1)
    || (Distance(edges, RootSet(nodes, edges), w, d) && Precedes(nodes, edges, d, u, w))
  }

  /** Every edge out of a reachable vertex advances. */
  ghost predicate ReachedAdvances(nodes: seq<Node>, edges: seq<Edge>) {
    forall u, d: nat, w :: Edge(u, w) in edges && Distance(edges, RootSet(nodes, edges), u, d)
                           ==> Advances(nodes, edges, u, d, w)
  }

  lemma ForwardAdvances(nodes: seq<Node>, edges: seq<Edge>, u: Id, d: nat, w: Id)
    requires Forward(edges, Order(nodes, edges), |Reached(nodes, edges)|)
    requires Edge(u, w) in edges && Distance(edges, RootSet(nodes, edges), u, d)
    ensures Advances(nodes, edges, u, d, w)
  {
    var roots := RootSet(nodes, edges);
    WalkStep(edges, roots, u, w, d);
    var c := HasDistance(edges, roots, w, d + 1);
    ForwardRaisesDistance(nodes, edges, u, w, d, c);
    var i := PositionOf(nodes, edges, u, d);
    var j := PositionOf(nodes, edges, w, c);
    ReachedByPrecedence(nodes, edges, i, j);
  }

  lemma AdvanceIsForward(nodes: seq<Node>, edges: seq<Edge>, i: nat, j: nat)
    requires i < |Reached(nodes, edges)| && j < |Reached(nodes, edges)|
    requires var r := Reached(nodes, edges);
             Advances(nodes, edges, r[i].id, r[i].level, r[j].id)
    ensures i < j
  {
    var r, roots := Reached(nodes, edges), RootSet(nodes, edges);
    ReachedTraversed(nodes, edges);
    if Distance(edges, roots, r[j].id, r[i].level + 1) {
      DistanceUnique(edges, roots, r[j].id, r[i].level + 1, r[j].level);
    } else {
      DistanceUnique(edges, roots, r[j].id, r[i].level, r[j].level);
    }
    ReachedByPrecedence(nodes, edges, i, j);
  }

  /** Edges between reachable vertices run forward exactly when each raises the distance, or
      keeps it and goes up in precedence. */
  lemma ReachedForwardIff(nodes: seq<Node>, edges: seq<Edge>)
    ensures Forward(edges, Order(nodes, edges), |Reached(nodes, edges)|) <==> ReachedAdvances(nodes, edges)
  {
    if Forward(edges, Order(nodes, edges), |Reached(nodes, edges)|) {
      forall u, d: nat, w | Edge(u, w) in edges && Distance(edges, RootSet(nodes, edges), u, d)
        ensures Advances(nodes, edges, u, d, w)
      {
        ForwardAdvances(nodes, edges, u, d, w);
      }
    }
    if ReachedAdvances(nodes, edges) {
      var r, order := Reached(nodes, edges), Order(nodes, edges);
      ReachedTraversed(nodes, edges);
      forall i, j | 0 <= i < |r| && 0 <= j < |r| && Edge(order[i], order[j]) in edges
        ensures i < j
      {
        assert Advances(nodes, edges, r[i].id, r[i].level, r[j].id);
        AdvanceIsForward(nodes, edges, i, j);
      }
    }
  }

  // ----- the rest of the order -----

  /** The whole list is a topological order of the edges between its members. */
  ghost predicate IsTopological(edges: seq<Edge>, order: seq<Id>) {
    Forward(edges, order, |order|)
  }

  ghost predicate NoneLeadsBack(edges: seq<Edge>, a: seq<Id>, b: seq<Id>) {
    forall u, w :: u in b && w in a ==> Edge(u, w) !in edges
  }

  lemma TopologicalConcat(edges: seq<Edge>, a: seq<Id>, b: seq<Id>)
    ensures IsTopological(edges, a + b)
            <==> IsTopological(edges, a) && IsTopological(edges, b) && NoneLeadsBack(edges, a, b)
  {
    var s := a + b;
    assert forall i :: 0 <= i < |a| ==> s[i] == a[i] && a[i] in a;
    assert forall i :: 0 <= i < |b| ==> s[|a| + i] == b[i];
    if IsTopological(edges, s) {
      forall i, j | 0 <= i < |b| && 0 <= j < |b| && Edge(b[i], b[j]) in edges
        ensures i < j
      {
        assert Edge(s[|a| + i], s[|a| + j]) in edges;
      }
      forall u, w | u in b && w in a
        ensures Edge(u, w) !in edges
      {
        var i, j :| 0 <= i < |b| && b[i] == u && 0 <= j < |a| && a[j] == w;
        assert Edge(s[|a| + i], s[j]) == Edge(u, w);
      }
    }
    if IsTopological(edges, a) && IsTopological(edges, b) && NoneLeadsBack(edges, a, b) {
      forall i, j | 0 <= i < |s| && 0 <= j < |s| && Edge(s[i], s[j]) in edges
        ensures i < j
      {
        if i >= |a| {
          assert s[i] == b[i - |a|] && s[i] in b;
          if j >= |a| {
            assert s[j] == b[j - |a|];
          }
        }
      }
    }
  }

  /** Edges between listed nodes outside `seen` follow the list. */
  ghost predicate FollowList(nodes: seq<Node>, edges: seq<Edge>, seen: set<Id>) {
    forall i, j ::
      && 0 <= i < |nodes| && 0 <= j < |nodes|
      && nodes[i].id !in seen && nodes[j].id !in seen
      && Edge(nodes[i].id, nodes[j].id) in edges
      ==> i < j
  }

  lemma {:induction false} LeftoverTopologicalIff(nodes: seq<Node>, edges: seq<Edge>, seen: set<Id>)
    ensures IsTopological(edges, Leftover(nodes, seen)) <==> FollowList(nodes, edges, seen)
    decreases |nodes|
  {
    if nodes != [] {
      var front, n := SplitLast(nodes);
      LeftoverTopologicalIff(front, edges, seen);
      LeftoverLast(front, n, edges, seen);
    }
  }

  lemma LeftoverLast(front: seq<Node>, n: Node, edges: seq<Edge>, seen: set<Id>)
    requires IsTopological(edges, Leftover(front, seen)) <==> FollowList(front, edges, seen)
    ensures IsTopological(edges, Leftover(front + [n], seen)) <==> FollowList(front + [n], edges, seen)
  {
    var l := Leftover(front, seen);
    assert (front + [n])[..|front|] == front;
    FollowListLast(front, n, edges, seen);
    if n.id in seen {
      assert l + [] == l;
    } else {
      TopologicalConcat(edges, l, [n.id]);
      LeftoverLeadsBackIff(front, n, edges, seen);
      SingleTopologicalIff(edges, n.id);
    }
  }

  lemma SingleTopologicalIff(edges: seq<Edge>, v: Id)
    ensures IsTopological(edges, [v]) <==> Edge(v, v) !in edges
  {
    assert [v][0] == v;
  }

  /** Of the unseen nodes in front, the last node feeds none. */
  ghost predicate FeedsNone(front: seq<Node>, n: Node, edges: seq<Edge>, seen: set<Id>) {
    forall j :: 0 <= j < |front| && front[j].id !in seen ==> Edge(n.id, front[j].id) !in edges
  }

  lemma FollowListLast(front: seq<Node>, n: Node, edges: seq<Edge>, seen: set<Id>)
    ensures FollowList(front + [n], edges, seen)
            <==> && FollowList(front, edges, seen)
                 && (n.id !in seen ==> FeedsNone(front, n, edges, seen) && Edge(n.id, n.id) !in edges)
  {
    var nodes := front + [n];
    assert nodes[|front|] == n && forall i :: 0 <= i < |front| ==> nodes[i] == front[i];
    if FollowList(nodes, edges, seen) && n.id !in seen {
      forall j | 0 <= j < |front| && front[j].id !in seen
        ensures Edge(n.id, front[j].id) !in edges
      {
        assert Edge(nodes[|front|].id, nodes[j].id) == Edge(n.id, front[j].id);
      }
    }
  }

  lemma LeftoverLeadsBackIff(front: seq<Node>, n: Node, edges: seq<Edge>, seen: set<Id>)
    ensures NoneLeadsBack(edges, Leftover(front, seen), [n.id]) <==> FeedsNone(front, n, edges, seen)
  {
    var l := Leftover(front, seen);
    assert n.id in [n.id];
    if NoneLeadsBack(edges, l, [n.id]) {
      forall j | 0 <= j < |front| && front[j].id !in seen
        ensures Edge(n.id, front[j].id) !in edges
      {
        assert front[j] in front && front[j].id in l;
      }
    }
    if FeedsNone(front, n, edges, seen) {
      forall w | w in l
        ensures Edge(n.id, w) !in edges
      {
        var m :| m in front && m.id == w;
        var j :| 0 <= j < |front| && front[j] == m;
      }
    }
  }

  // ----- the whole order -----

  ghost predicate Unreachable(nodes: seq<Node>, edges: seq<Edge>, v: Id) {
    !Reachable(edges, RootSet(nodes, edges), v)
  }

  /** No edge leads from an unreached node to a reached vertex, and the edges between unreached
      nodes follow the list. */
  ghost predicate RestAdvances(nodes: seq<Node>, edges: seq<Edge>) {
    && (forall n, w :: n in nodes && Unreachable(nodes, edges, n.id) && Edge(n.id, w) in edges
                       ==> Unreachable(nodes, edges, w))
    && (forall i, j ::
          && 0 <= i < |nodes| && 0 <= j < |nodes|
          && Unreachable(nodes, edges, nodes[i].id) && Unreachable(nodes, edges, nodes[j].id)
          && Edge(nodes[i].id, nodes[j].id) in edges
          ==> i < j)
  }

  lemma RestLeadsBackIff(nodes: seq<Node>, edges: seq<Edge>)
    ensures var r := Reached(nodes, edges);
            NoneLeadsBack(edges, ItemIds(r), Leftover(nodes, Seen(r)))
            <==> forall n, w :: n in nodes && Unreachable(nodes, edges, n.id) && Edge(n.id, w) in edges
                                ==> Unreachable(nodes, edges, w)
  {
    var r := Reached(nodes, edges);
    var ids, l := ItemIds(r), Leftover(nodes, Seen(r));
    ReachedByDistance(nodes, edges);
    forall n | n in nodes
      ensures n.id in l <==> Unreachable(nodes, edges, n.id)
    {}
    if forall n, w :: n in nodes && Unreachable(nodes, edges, n.id) && Edge(n.id, w) in edges
                      ==> Unreachable(nodes, edges, w) {
      forall u, w | u in l && w in ids
        ensures Edge(u, w) !in edges
      {
        var n :| n in nodes && n.id == u;
      }
    }
  }

  /** On any graph, the "topo walk" is topological exactly when every edge out of a reachable
      vertex raises the distance, or keeps it and goes up in precedence, and the edges out of
      unreached nodes lead only to nodes listed later and unreached as well. */
  lemma TopologicalIff(nodes: seq<Node>, edges: seq<Edge>)
    ensures IsTopological(edges, Order(nodes, edges)) <==> ReachedAdvances(nodes, edges) && RestAdvances(nodes, edges)
  {
    var r := Reached(nodes, edges);
    var ids, l := ItemIds(r), Leftover(nodes, Seen(r));
    TopologicalConcat(edges, ids, l);
    RestLeadsBackIff(nodes, edges);
    LeftoverTopologicalIff(nodes, edges, Seen(r));
    ReachedForwardIff(nodes, edges);
    assert forall i :: 0 <= i < |r| ==> Order(nodes, edges)[i] == ids[i];
    assert IsTopological(edges, ids) <==> Forward(edges, Order(nodes, edges), |r|);
    assert forall v :: v in Seen(r) <==> !Unreachable(nodes, edges, v) by {
      ReachedByDistance(nodes, edges);
    }
  }

  // ----- closed graphs -----

  /** If the unreached nodes of a closed graph are listed forward, there is none. */
  lemma {:induction false} RestIsEmpty(nodes: seq<Node>, edges: seq<Edge>, i: nat)
    requires Closed(nodes, edges) && RestAdvances(nodes, edges) && i < |nodes|
    ensures Reachable(edges, RootSet(nodes, edges), nodes[i].id)
    decreases i
  {
    var roots, v := RootSet(nodes, edges), nodes[i].id;
    if Unreachable(nodes, edges, v) {
      UnreachedIsSourceless(nodes, edges);
      assert nodes[i] in nodes;
      assert FedFrom(edges, Unreached(nodes, edges), v);
      var u :| u in Unreached(nodes, edges) && Edge(u, v) in edges;
      var n :| n in nodes && n.id == u;
      var j :| 0 <= j < |nodes| && nodes[j] == n;
      RestIsEmpty(nodes, edges, j);
    }
  }

  /** On a closed graph, the walk is topological exactly when every edge out of a reachable
      vertex advances and every node is reachable from the in-degree-0 nodes. */
  lemma ClosedTopologicalIff(nodes: seq<Node>, edges: seq<Edge>)
    requires Closed(nodes, edges)
    ensures IsTopological(edges, Order(nodes, edges))
            <==> && ReachedAdvances(nodes, edges)
                 && forall n :: n in nodes ==> Reachable(edges, RootSet(nodes, edges), n.id)
  {
    TopologicalIff(nodes, edges);
    if RestAdvances(nodes, edges) {
      forall n | n in nodes
        ensures Reachable(edges, RootSet(nodes, edges), n.id)
      {
        var i :| 0 <= i < |nodes| && nodes[i] == n;
        RestIsEmpty(nodes, edges, i);
      }
    }
    if forall n :: n in nodes ==> Reachable(edges, RootSet(nodes, edges), n.id) {
      assert forall i :: 0 <= i < |nodes| ==> nodes[i] in nodes;
    }
  }

  /** No edge out of a reachable vertex leads to one at the same distance. */
  ghost predicate NoneAcross(edges: seq<Edge>, roots: set<Id>) {
    forall u, d: nat, w :: Edge(u, w) in edges && Distance(edges, roots, u, d) ==> !Distance(edges, roots, w, d)
  }

  lemma LevelledIffAdvances(nodes: seq<Node>, edges: seq<Edge>)
    ensures Levelled(edges, RootSet(nodes, edges))
            <==> ReachedAdvances(nodes, edges) && NoneAcross(edges, RootSet(nodes, edges))
  {
    var roots := RootSet(nodes, edges);
    if Levelled(edges, roots) {
      forall u, d: nat, w | Edge(u, w) in edges && Distance(edges, roots, u, d)
        ensures Advances(nodes, edges, u, d, w) && !Distance(edges, roots, w, d)
      {
        assert Distance(edges, roots, w, d + 1);
      }
    }
  }

  /** A closed graph whose nodes are all reachable is levelled exactly when the walk is
      topological and no edge joins vertices at equal distance. */
  lemma LevelledIffTopological(nodes: seq<Node>, edges: seq<Edge>)
    requires Closed(nodes, edges)
    ensures Levelled(edges, RootSet(nodes, edges))
            && (forall n :: n in nodes ==> Reachable(edges, RootSet(nodes, edges), n.id))
            <==> IsTopological(edges, Order(nodes, edges)) && NoneAcross(edges, RootSet(nodes, edges))
  {
    ClosedTopologicalIff(nodes, edges);
    LevelledIffAdvances(nodes, edges);
  }
}
