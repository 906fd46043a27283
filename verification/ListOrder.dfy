/** Every list that the builder selects from another keeps that list's order and repetitions. */
module ListOrder {
  import opened Graph
  import opened Traversal
  import opened WalkOrder
  import opened MergeSwaps
  import opened Subgraphs

  ghost function Filter<T>(s: seq<T>, keep: T -> bool): seq<T> {
    if s == [] then []
    else Filter(s[..|s| - 1], keep) + if keep(s[|s| - 1]) then [s[|s| - 1]] else []
  }

  /** `at` lists, in order, the positions in `s` of what is kept, and `r` what stands there. */
  ghost predicate Picks<T(!new)>(s: seq<T>, keep: T -> bool, r: seq<T>, at: seq<nat>) {
    && |at| == |r|
    && (forall k :: 0 <= k < |at| ==> at[k] < |s| && r[k] == s[at[k]])
    && (forall j, k :: 0 <= j < k < |at| ==> at[j] < at[k])
    && (forall i: nat :: i < |s| ==> (keep(s[i]) <==> i in at))
  }

  lemma {:induction false} FilterPicks<T(!new)>(s: seq<T>, keep: T -> bool) returns (at: seq<nat>)
    ensures Picks(s, keep, Filter(s, keep), at)
  {
    if s == [] {
      at := [];
    } else {
      var n := |s| - 1;
      var front := s[..n];
      var rest := FilterPicks(front, keep);
      assert forall k :: 0 <= k < |rest| ==> rest[k] < n;
      at := rest + if keep(s[n]) then [n] else [];
      forall i: nat | i < |s|
        ensures keep(s[i]) <==> i in at
      {
        if i < n {
          assert front[i] == s[i];
        }
      }
    }
  }

  /** What is kept is exactly what the test admits. */
  lemma FilterMembers<T(!new)>(s: seq<T>, keep: T -> bool, x: T)
    ensures x in Filter(s, keep) <==> x in s && keep(x)
  {
    var at := FilterPicks(s, keep);
    var r := Filter(s, keep);
    if x in r {
      var k :| 0 <= k < |r| && r[k] == x;
      assert at[k] in at;
    }
    if x in s && keep(x) {
      var i :| 0 <= i < |s| && s[i] == x;
      assert i in at;
      var k :| 0 <= k < |at| && at[k] == i;
      assert r[k] == x;
    }
  }

  // ----- the selections -----

  lemma {:induction false} KeepNodesSelects(nodes: seq<Node>, removed: set<Id>)
    ensures KeepNodes(nodes, removed) == Filter(nodes, (n: Node) => n.id !in removed)
  {
    if nodes != [] {
      KeepNodesSelects(nodes[..|nodes| - 1], removed);
    }
  }

  lemma {:induction false} KeepEdgesSelects(edges: seq<Edge>, removed: set<Id>)
    ensures KeepEdges(edges, removed) == Filter(edges, (e: Edge) => e.src !in removed && e.dst !in removed)
  {
    if edges != [] {
      KeepEdgesSelects(edges[..|edges| - 1], removed);
    }
  }

  lemma {:induction false} SwapPairsSelects(nodes: seq<Node>, edges: seq<Edge>)
    ensures SwapPairs(nodes, edges)
         == Filter(edges, (e: Edge) => HasKind(nodes, e.src, Swap) && HasKind(nodes, e.dst, Swap))
  {
    if edges != [] {
      SwapPairsSelects(nodes, edges[..|edges| - 1]);
    }
  }

  lemma {:induction false} NodesInSelects(nodes: seq<Node>, ids: set<Id>)
    ensures NodesIn(nodes, ids) == Filter(nodes, (n: Node) => n.id in ids)
  {
    if nodes != [] {
      NodesInSelects(nodes[..|nodes| - 1], ids);
    }
  }

  lemma IdsAppend(nodes: seq<Node>, more: seq<Node>)
    ensures Ids(nodes + more) == Ids(nodes) + Ids(more)
  {}

  lemma {:induction false} RootsSelect(nodes: seq<Node>, edges: seq<Edge>)
    ensures Roots(nodes, edges) == Ids(Filter(nodes, (n: Node) => forall e :: e in edges ==> e.dst != n.id))
  {
    if nodes != [] {
      var front, n := nodes[..|nodes| - 1], nodes[|nodes| - 1];
      var keep := (m: Node) => forall e :: e in edges ==> e.dst != m.id;
      RootsSelect(front, edges);
      IdsAppend(Filter(front, keep), if keep(n) then [n] else []);
      assert Ids(if keep(n) then [n] else []) == if keep(n) then [n.id] else [];
    }
  }

  lemma {:induction false} LeftoverSelects(nodes: seq<Node>, seen: set<Id>)
    ensures Leftover(nodes, seen) == Ids(Filter(nodes, (n: Node) => n.id !in seen))
  {
    if nodes != [] {
      var front, n := nodes[..|nodes| - 1], nodes[|nodes| - 1];
      var keep := (m: Node) => m.id !in seen;
      LeftoverSelects(front, seen);
      IdsAppend(Filter(front, keep), if keep(n) then [n] else []);
      assert Ids(if keep(n) then [n] else []) == if keep(n) then [n.id] else [];
    }
  }

  // ----- groups -----

  lemma {:induction false} FilterSame<T(!new)>(s: seq<T>, p: T -> bool, q: T -> bool)
    requires forall x :: x in s ==> (p(x) <==> q(x))
    ensures Filter(s, p) == Filter(s, q)
  {
    if s != [] {
      FilterSame(s[..|s| - 1], p, q);
    }
  }

  ghost predicate JoinedBefore(nodes: seq<Node>, edges: seq<Edge>, k: nat, v: Id)
    requires k <= |nodes|
  {
    exists j :: 0 <= j < k && Joined(edges, nodes[j].id, v)
  }

  /** The ids joined to one of the first `k` nodes. */
  ghost function DoneBefore(nodes: seq<Node>, edges: seq<Edge>, k: nat): set<Id>
    requires k <= |nodes|
  {
    set v | v in IdSet(nodes) && JoinedBefore(nodes, edges, k, v)
  }

  lemma DoneNext(nodes: seq<Node>, edges: seq<Edge>, k: nat)
    requires k < |nodes|
    ensures DoneBefore(nodes, edges, k + 1)
         == DoneBefore(nodes, edges, k) + Component(nodes, edges, nodes[k].id)
    ensures nodes[k].id in DoneBefore(nodes, edges, k)
            ==> DoneBefore(nodes, edges, k + 1) == DoneBefore(nodes, edges, k)
  {
    var id := nodes[k].id;
    forall v
      ensures JoinedBefore(nodes, edges, k + 1, v) <==> JoinedBefore(nodes, edges, k, v) || Joined(edges, id, v)
    {}
    if id in DoneBefore(nodes, edges, k) {
      var j :| 0 <= j < k && Joined(edges, nodes[j].id, id);
      forall v | Joined(edges, id, v)
        ensures JoinedBefore(nodes, edges, k, v)
      {
        JoinedTransitive(edges, nodes[j].id, id, v);
      }
    }
  }

  /** What is joined to `v`, in list order. */
  ghost function GroupOf(nodes: seq<Node>, edges: seq<Edge>, v: Id): seq<Node> {
    Filter(nodes, (n: Node) => Joined(edges, v, n.id))
  }

  ghost predicate HeadsOfGroups(nodes: seq<Node>, edges: seq<Edge>, k: nat, groups: seq<seq<Node>>, at: seq<nat>) {
    && |at| == |groups|
    && (forall i :: 0 <= i < |at| ==> k <= at[i] < |nodes|)
    && (forall i :: 0 <= i < |at| ==> groups[i] == GroupOf(nodes, edges, nodes[at[i]].id))
  }

  /** `at` lists, from position `k` on, the nodes joined to no node listed before them, and
      `groups` what is joined to each of them. */
  ghost predicate Heads(nodes: seq<Node>, edges: seq<Edge>, k: nat, groups: seq<seq<Node>>, at: seq<nat>) {
    && HeadsOfGroups(nodes, edges, k, groups, at)
    && (forall i, j :: 0 <= i < j < |at| ==> at[i] < at[j])
    && (forall i: nat :: k <= i < |nodes| ==> (i in at <==> !JoinedBefore(nodes, edges, i, nodes[i].id)))
  }

  lemma HeadsSkip(nodes: seq<Node>, edges: seq<Edge>, k: nat, groups: seq<seq<Node>>, at: seq<nat>)
    requires k < |nodes| && Heads(nodes, edges, k + 1, groups, at) && JoinedBefore(nodes, edges, k, nodes[k].id)
    ensures Heads(nodes, edges, k, groups, at)
  {
    assert k !in at;
  }

  lemma GroupsAdd(nodes: seq<Node>, edges: seq<Edge>, k: nat, groups: seq<seq<Node>>, at: seq<nat>)
    requires k < |nodes| && HeadsOfGroups(nodes, edges, k + 1, groups, at)
    ensures HeadsOfGroups(nodes, edges, k, [GroupOf(nodes, edges, nodes[k].id)] + groups, [k] + at)
  {
    var at', groups' := [k] + at, [GroupOf(nodes, edges, nodes[k].id)] + groups;
    forall i | 0 <= i < |at'|
      ensures k <= at'[i] < |nodes| && groups'[i] == GroupOf(nodes, edges, nodes[at'[i]].id)
    {
      if i > 0 {
        assert at'[i] == at[i - 1] && groups'[i] == groups[i - 1];
      }
    }
  }

  lemma HeadsAdd(nodes: seq<Node>, edges: seq<Edge>, k: nat, groups: seq<seq<Node>>, at: seq<nat>)
    requires k < |nodes| && Heads(nodes, edges, k + 1, groups, at) && !JoinedBefore(nodes, edges, k, nodes[k].id)
    ensures Heads(nodes, edges, k, [GroupOf(nodes, edges, nodes[k].id)] + groups, [k] + at)
  {
    GroupsAdd(nodes, edges, k, groups, at);
    var at' := [k] + at;
    assert forall i :: 0 < i < |at'| ==> at'[i] == at[i - 1];
    assert forall i: nat :: i in at' <==> i == k || i in at;
  }

  lemma {:induction false} ComponentsHeads(nodes: seq<Node>, edges: seq<Edge>, k: nat) returns (at: seq<nat>)
    requires k <= |nodes|
    ensures Heads(nodes, edges, k, Components(nodes[k..], nodes, edges, DoneBefore(nodes, edges, k)), at)
    decreases |nodes| - k
  {
    if k == |nodes| {
      at := [];
    } else {
      var id := nodes[k].id;
      at := ComponentsHeads(nodes, edges, k + 1);
      DoneNext(nodes, edges, k);
      assert nodes[k] in nodes && nodes[k..][0] == nodes[k] && nodes[k..][1..] == nodes[k + 1..];
      var rest := Components(nodes[k + 1..], nodes, edges, DoneBefore(nodes, edges, k + 1));
      if JoinedBefore(nodes, edges, k, id) {
        HeadsSkip(nodes, edges, k, rest, at);
      } else {
        HeadsAdd(nodes, edges, k, rest, at);
        ComponentSelects(nodes, edges, id);
        at := [k] + at;
      }
    }
  }

  lemma ComponentSelects(nodes: seq<Node>, edges: seq<Edge>, id: Id)
    ensures NodesIn(nodes, Component(nodes, edges, id)) == GroupOf(nodes, edges, id)
  {
    var part := Component(nodes, edges, id);
    NodesInSelects(nodes, part);
    FilterSame(nodes, (n: Node) => n.id in part, (n: Node) => Joined(edges, id, n.id));
  }

  /** The groups come in the order of their first nodes, the nodes joined to none listed before
      them, and each group lists in order what is joined to its first node. */
  lemma GroupsInListOrder(nodes: seq<Node>, edges: seq<Edge>) returns (at: seq<nat>)
    ensures Heads(nodes, edges, 0, Groups(nodes, edges), at)
  {
    at := ComponentsHeads(nodes, edges, 0);
    assert nodes[0..] == nodes;
    assert DoneBefore(nodes, edges, 0) == {};
  }
}
