/** Strategy graphs as the builder stores them: a list of nodes and a list of edges
    that name their end points by id. */
module Graph {
  import opened Wrappers

  type Id = string

  datatype Kind = Supply | Borrow | Swap | Repeat | Settle | Vault | Custom(name: string)

  type Config = map<string, string>

  datatype Node = Node(id: Id, kind: Kind, x: real, y: real, config: Config)

  datatype Edge = Edge(src: Id, dst: Id)

  function IdSet(nodes: seq<Node>): set<Id> {
    set n | n in nodes :: n.id
  }

  function Ids(nodes: seq<Node>): (r: seq<Id>)
    ensures |r| == |nodes|
    ensures forall i :: 0 <= i < |nodes| ==> r[i] == nodes[i].id
  {
    seq(|nodes|, i requires 0 <= i < |nodes| => nodes[i].id)
  }

  /** First position of `v` in `s`, or `|s|` when it is absent. */
  function IndexOf<T(==)>(s: seq<T>, v: T): (k: nat)
    ensures k <= |s|
    ensures k < |s| ==> s[k] == v
    ensures v in s ==> k < |s|
  {
    if s == [] then 0 else if s[0] == v then 0 else 1 + IndexOf(s[1..], v)
  }

  ghost predicate Distinct<T>(s: seq<T>) {
    forall i, j :: 0 <= i < j < |s| ==> s[i] != s[j]
  }

  /** The first node with this id, as `nodes.find` returns it. */
  function FindNode(nodes: seq<Node>, id: Id): (r: Option<Node>)
    ensures r.Some? ==> r.value in nodes && r.value.id == id
    ensures r.None? <==> id !in IdSet(nodes)
  {
    if nodes == [] then None
    else if nodes[0].id == id then Some(nodes[0])
    else FindNode(nodes[1..], id)
  }

  predicate HasKind(nodes: seq<Node>, id: Id, kind: Kind) {
    var n := FindNode(nodes, id);
    n.Some? && n.value.kind == kind
  }

  ghost predicate DistinctIds(nodes: seq<Node>) {
    forall i, j :: 0 <= i < j < |nodes| ==> nodes[i].id != nodes[j].id
  }

  /** Where ids do not repeat, a vertex has the kind of its node. */
  lemma {:induction false} HasKindIff(nodes: seq<Node>, id: Id, kind: Kind)
    requires DistinctIds(nodes)
    ensures HasKind(nodes, id, kind) <==> exists n :: n in nodes && n.id == id && n.kind == kind
  {
    var found := FindNode(nodes, id);
    forall n | n in nodes && n.id == id
      ensures found == Some(n)
    {
      var i :| 0 <= i < |nodes| && nodes[i] == n;
      var j :| 0 <= j < |nodes| && nodes[j] == found.value;
    }
  }

  /** Both ends of every edge are nodes. */
  ghost predicate Closed(nodes: seq<Node>, edges: seq<Edge>) {
    forall e :: e in edges ==> e.src in IdSet(nodes) && e.dst in IdSet(nodes)
  }

  /** Targets of the edges that leave `v`, in edge order. */
  function Succs(edges: seq<Edge>, v: Id): (r: seq<Id>)
    ensures forall w :: w in r <==> Edge(v, w) in edges
  {
    if edges == [] then []
    else
      var e := edges[|edges| - 1];
      var rest := Succs(edges[..|edges| - 1], v);
      assert edges == edges[..|edges| - 1] + [e];
      if e.src == v then rest + [e.dst] else rest
  }

  lemma SuccsAppend(edges: seq<Edge>, e: Edge, v: Id)
    ensures Succs(edges + [e], v) == if e.src == v then Succs(edges, v) + [e.dst] else Succs(edges, v)
  {
    assert (edges + [e])[..|edges|] == edges;
  }

  lemma SplitLast(nodes: seq<Node>) returns (front: seq<Node>, n: Node)
    requires nodes != []
    ensures nodes == front + [n]
  {
    front, n := nodes[..|nodes| - 1], nodes[|nodes| - 1];
  }

  /** The `i`-th step of a walk follows an edge. */
  ghost predicate Hop(edges: seq<Edge>, p: seq<Id>, i: int)
    requires 0 < i < |p|
  {
    Edge(p[i - 1], p[i]) in edges
  }

  ghost predicate IsWalk(edges: seq<Edge>, p: seq<Id>) {
    |p| > 0 && forall i :: 0 < i < |p| ==> Hop(edges, p, i)
  }

  lemma PrependWalk(edges: seq<Edge>, u: Id, p: seq<Id>)
    requires IsWalk(edges, p) && Edge(u, p[0]) in edges
    ensures IsWalk(edges, [u] + p)
  {
    var q := [u] + p;
    forall i | 0 < i < |q|
      ensures Hop(edges, q, i)
    {
      if i > 1 {
        assert Hop(edges, p, i - 1);
      }
    }
  }

  ghost predicate Within(p: seq<Id>, vs: set<Id>) {
    forall i :: 0 <= i < |p| ==> p[i] in vs
  }

  /** A walk of at least one edge that returns to its start, through `vs` only. */
  ghost predicate IsClosedWalk(edges: seq<Edge>, vs: set<Id>, c: seq<Id>) {
    |c| > 1 && c[0] == c[|c| - 1] && IsWalk(edges, c) && Within(c, vs)
  }

  /** A closed walk that repeats no vertex apart from its two end points. */
  ghost predicate IsSimpleCycle(edges: seq<Edge>, vs: set<Id>, c: seq<Id>) {
    IsClosedWalk(edges, vs, c) && Distinct(c[..|c| - 1])
  }

  ghost predicate HasCycle(edges: seq<Edge>, vs: set<Id>) {
    exists c :: IsClosedWalk(edges, vs, c)
  }

  /** A numbering that every edge raises rules out cycles. */
  lemma NumberingRulesOutCycles(edges: seq<Edge>, vs: set<Id>, number: Id -> int)
    requires forall e :: e in edges ==> number(e.src) < number(e.dst)
    ensures !HasCycle(edges, vs)
  {
    forall c | IsClosedWalk(edges, vs, c)
      ensures number(c[0]) < number(c[|c| - 1])
    {
      NumbersRise(edges, c, number, |c| - 1);
    }
  }

  lemma {:induction false} NumbersRise(edges: seq<Edge>, p: seq<Id>, number: Id -> int, i: nat)
    requires IsWalk(edges, p) && 0 < i < |p|
    requires forall e :: e in edges ==> number(e.src) < number(e.dst)
    ensures number(p[0]) < number(p[i])
  {
    assert Hop(edges, p, i);
    assert number(Edge(p[i - 1], p[i]).src) < number(Edge(p[i - 1], p[i]).dst);
    if i > 1 {
      NumbersRise(edges, p, number, i - 1);
    }
  }
}
