/** `detectIssues`: the report shown next to the canvas. */
module Detection {
  import opened Graph
  import opened Traversal
  import opened WalkOrder
  import opened Cycles
  import opened FirstCycle
  import opened MergeSwaps

  datatype Severity = Error | Warn

  datatype Issue =
    | CycleOutsideRepeat(cycle: seq<Id>)
    | GoNowhere(ids: seq<Id>)
    | MissingSettle
    | MergeTip(pairs: seq<Edge>)

  // ----- the parts of the report -----

  predicate OnlyRepeat(nodes: seq<Node>, cycle: seq<Id>) {
    forall v :: v in cycle ==> HasKind(nodes, v, Repeat)
  }

  function CyclePart(nodes: seq<Node>, edges: seq<Edge>): seq<Issue> {
    var c := FindCycle(nodes, edges);
    if c.Some? && !OnlyRepeat(nodes, c.value) then [CycleOutsideRepeat(c.value)] else []
  }

  /** Ids of the nodes, other than settle, without an outgoing edge. */
  function DeadEnds(nodes: seq<Node>, edges: seq<Edge>): (r: seq<Id>)
    ensures r == [] <==> forall n :: n in nodes && n.kind != Settle ==> exists w :: Edge(n.id, w) in edges
  {
    if nodes == [] then []
    else
      var n := nodes[|nodes| - 1];
      assert nodes == nodes[..|nodes| - 1] + [n];
      assert Succs(edges, n.id) != [] ==> Succs(edges, n.id)[0] in Succs(edges, n.id);
      DeadEnds(nodes[..|nodes| - 1], edges)
      + if n.kind != Settle && Succs(edges, n.id) == [] then [n.id] else []
  }

  function DeadEndPart(nodes: seq<Node>, edges: seq<Edge>): seq<Issue> {
    if DeadEnds(nodes, edges) == [] then [] else [GoNowhere(DeadEnds(nodes, edges))]
  }

  function SettlePart(nodes: seq<Node>): seq<Issue> {
    if exists n :: n in nodes && n.kind == Settle then [] else [MissingSettle]
  }

  function MergePart(nodes: seq<Node>, edges: seq<Edge>): seq<Issue> {
    if SwapPairs(nodes, edges) == [] then [] else [MergeTip(SwapPairs(nodes, edges))]
  }

  function Issues(nodes: seq<Node>, edges: seq<Edge>): seq<Issue> {
    if nodes == [] then []
    else CyclePart(nodes, edges) + DeadEndPart(nodes, edges) + SettlePart(nodes) + MergePart(nodes, edges)
  }

  // ----- what the cycle error means -----

  function RepeatIds(nodes: seq<Node>): set<Id> {
    set n | n in nodes && HasKind(nodes, n.id, Repeat) :: n.id
  }

  /** A cycle that passes a node other than a repeat. */
  ghost predicate HasMixedCycle(nodes: seq<Node>, edges: seq<Edge>) {
    exists c, v :: IsClosedWalk(edges, IdSet(nodes), c) && v in c && !HasKind(nodes, v, Repeat)
  }

  ghost predicate ReportsCycle(nodes: seq<Node>, edges: seq<Edge>) {
    exists c :: CycleOutsideRepeat(c) in Issues(nodes, edges)
  }

  lemma ReportsCycleIff(nodes: seq<Node>, edges: seq<Edge>)
    ensures ReportsCycle(nodes, edges) <==>
            FindCycle(nodes, edges).Some? && !OnlyRepeat(nodes, FindCycle(nodes, edges).value)
  {
    FindCycleIffCyclic(nodes, edges);
    var c := FindCycle(nodes, edges);
    if c.Some? && !OnlyRepeat(nodes, c.value) {
      assert nodes != [] by {
        assert c.value[0] in IdSet(nodes);
      }
      assert Issues(nodes, edges)[0] == CycleOutsideRepeat(c.value);
    }
  }

  /** The first loop of the graph passes a node other than a repeat. */
  ghost predicate FirstLoopIsMixed(nodes: seq<Node>, edges: seq<Edge>) {
    && FirstLoop(nodes, edges).Some?
    && exists v :: v in FirstLoop(nodes, edges).value && !HasKind(nodes, v, Repeat)
  }

  lemma CycleErrorIff(nodes: seq<Node>, edges: seq<Edge>)
    ensures ReportsCycle(nodes, edges) <==> FirstLoopIsMixed(nodes, edges)
  {
    ReportsCycleIff(nodes, edges);
    FindCycleIsFirstLoop(nodes, edges);
  }

  /** The cycle error is never raised without a cycle that passes a non-repeat node. */
  lemma CycleErrorSound(nodes: seq<Node>, edges: seq<Edge>)
    requires ReportsCycle(nodes, edges)
    ensures HasMixedCycle(nodes, edges)
  {
    ReportsCycleIff(nodes, edges);
    FindCycleIffCyclic(nodes, edges);
  }

  lemma RepeatCycleFound(nodes: seq<Node>, edges: seq<Edge>, c: seq<Id>)
    requires IsClosedWalk(edges, IdSet(nodes), c) && OnlyRepeat(nodes, c)
    ensures HasCycle(edges, RepeatIds(nodes))
  {
    forall i | 0 <= i < |c|
      ensures c[i] in RepeatIds(nodes)
    {
      assert c[i] in c;
      var n :| n in nodes && n.id == c[i];
    }
    assert IsClosedWalk(edges, RepeatIds(nodes), c);
  }

  /** Without a cycle made of repeats alone, the error is raised exactly on cyclic graphs. */
  lemma CycleErrorExact(nodes: seq<Node>, edges: seq<Edge>)
    requires !HasCycle(edges, RepeatIds(nodes))
    ensures ReportsCycle(nodes, edges) <==> HasCycle(edges, IdSet(nodes))
    ensures ReportsCycle(nodes, edges) <==> HasMixedCycle(nodes, edges)
  {
    ReportsCycleIff(nodes, edges);
    FindCycleIffCyclic(nodes, edges);
    forall c | IsClosedWalk(edges, IdSet(nodes), c)
      ensures !OnlyRepeat(nodes, c)
    {
      if OnlyRepeat(nodes, c) {
        RepeatCycleFound(nodes, edges, c);
      }
    }
  }

  /** In general the error is exact unless every cycle that passes a non-repeat is hidden
      behind a first loop of repeats. */
  lemma CycleErrorExactIff(nodes: seq<Node>, edges: seq<Edge>)
    ensures (ReportsCycle(nodes, edges) <==> HasMixedCycle(nodes, edges))
            <==> FirstLoopIsMixed(nodes, edges) || !HasMixedCycle(nodes, edges)
  {
    CycleErrorIff(nodes, edges);
    if ReportsCycle(nodes, edges) {
      CycleErrorSound(nodes, edges);
    }
  }

  // ----- the detector and the walker agree -----

  lemma CloseBack(edges: seq<Edge>, vs: set<Id>, q: seq<Id>, k: nat)
    requires IsWalk(edges, q) && Within(q, vs)
    requires 0 < k < |q| && q[k] == q[0]
    ensures HasCycle(edges, vs)
  {
    var c := q[..k + 1];
    forall i | 0 < i < |c|
      ensures Hop(edges, c, i)
    {
      assert Hop(edges, q, i);
    }
    assert IsClosedWalk(edges, vs, c);
  }

  ghost predicate FedFrom(edges: seq<Edge>, vs: set<Id>, v: Id) {
    exists u :: u in vs && Edge(u, v) in edges
  }

  /** Every member of `vs` has a predecessor in `vs`. */
  ghost predicate Sourceless(edges: seq<Edge>, vs: set<Id>) {
    forall v {:trigger FedFrom(edges, vs, v)} :: v in vs ==> FedFrom(edges, vs, v)
  }

  lemma CycleWidens(edges: seq<Edge>, vs: set<Id>, ws: set<Id>)
    requires vs <= ws && HasCycle(edges, vs)
    ensures HasCycle(edges, ws)
  {
    var c :| IsClosedWalk(edges, vs, c);
    assert IsClosedWalk(edges, ws, c);
  }

  /** Following predecessors back inside `vs` meets a vertex again. */
  lemma {:induction false} SourcelessHasCycle(edges: seq<Edge>, vs: set<Id>, p: seq<Id>)
    requires Sourceless(edges, vs)
    requires IsWalk(edges, p) && Within(p, vs)
    ensures HasCycle(edges, vs)
    decreases vs - (set v | v in p)
  {
    assert FedFrom(edges, vs, p[0]);
    var u :| u in vs && Edge(u, p[0]) in edges;
    var q := [u] + p;
    PrependWalk(edges, u, p);
    if u in p {
      var k :| 0 <= k < |p| && p[k] == u;
      CloseBack(edges, vs, q, k + 1);
    } else {
      assert u in vs - (set v | v in p);
      assert u in q && forall v :: v in p ==> v in q;
      SourcelessHasCycle(edges, vs, q);
    }
  }

  ghost function Unreached(nodes: seq<Node>, edges: seq<Edge>): set<Id> {
    set v | v in IdSet(nodes) && !Reachable(edges, RootSet(nodes, edges), v)
  }

  /** A node out of reach has a predecessor out of reach. */
  lemma UnreachedIsSourceless(nodes: seq<Node>, edges: seq<Edge>)
    requires Closed(nodes, edges)
    ensures Sourceless(edges, Unreached(nodes, edges))
  {
    var roots := RootSet(nodes, edges);
    forall v | v in Unreached(nodes, edges)
      ensures FedFrom(edges, Unreached(nodes, edges), v)
    {
      assert !WalkTo(edges, roots, v, 0);
      var e :| e in edges && e.dst == v;
      assert e == Edge(e.src, v);
      if n: nat :| WalkTo(edges, roots, e.src, n) {
        WalkStep(edges, roots, e.src, v, n);
      }
    }
  }

  lemma SourcelessIsEmpty(edges: seq<Edge>, vs: set<Id>, ids: set<Id>)
    requires vs <= ids && !HasCycle(edges, ids)
    requires Sourceless(edges, vs)
    ensures vs == {}
  {
    if v :| v in vs {
      SourcelessHasCycle(edges, vs, [v]);
      CycleWidens(edges, vs, ids);
    }
  }

  lemma AcyclicAllReachable(nodes: seq<Node>, edges: seq<Edge>, v: Id)
    requires Closed(nodes, edges)
    requires !HasCycle(edges, IdSet(nodes))
    requires v in IdSet(nodes)
    ensures Reachable(edges, RootSet(nodes, edges), v)
  {
    UnreachedIsSourceless(nodes, edges);
    SourcelessIsEmpty(edges, Unreached(nodes, edges), IdSet(nodes));
    assert v !in Unreached(nodes, edges);
  }

  lemma NoMembers(s: seq<Id>)
    ensures s == [] <==> forall v :: v !in s
  {
    if s != [] {
      assert s[0] in s;
    }
  }

  /** When the detector finds no cycle, every node is reachable from a root, so the order is
      the traversal alone: its fallback loop adds nothing. */
  lemma AcyclicOrderNeedsNoFallback(nodes: seq<Node>, edges: seq<Edge>)
    requires Closed(nodes, edges)
    requires FindCycle(nodes, edges).None?
    ensures forall v :: v in IdSet(nodes) ==> Reachable(edges, RootSet(nodes, edges), v)
    ensures Order(nodes, edges) == ItemIds(Reached(nodes, edges))
  {
    FindCycleIffCyclic(nodes, edges);
    forall v | v in IdSet(nodes)
      ensures Reachable(edges, RootSet(nodes, edges), v)
    {
      AcyclicAllReachable(nodes, edges, v);
    }
    ReachedByDistance(nodes, edges);
    NoMembers(Leftover(nodes, Seen(Reached(nodes, edges))));
  }

  // ----- the report as the source builds it -----

  ghost predicate OnCycle(c: seq<Id>, e: Edge) {
    exists i :: 0 < i < |c| && e == Edge(c[i - 1], c[i])
  }

  /** Edges painted as errors, before the borrow warnings are painted over them. */
  ghost predicate OnReportedCycle(nodes: seq<Node>, edges: seq<Edge>, e: Edge) {
    CyclePart(nodes, edges) != [] && OnCycle(FindCycle(nodes, edges).value, e)
  }

  predicate BorrowToSettle(nodes: seq<Node>, e: Edge) {
    HasKind(nodes, e.src, Borrow) && HasKind(nodes, e.dst, Settle)
  }

  method MarkCycle(c: seq<Id>) returns (sev: map<Edge, Severity>)
    ensures forall e :: e in sev <==> OnCycle(c, e)
    ensures forall e :: e in sev ==> sev[e] == Error
  {
    sev := map[];
    var i := 1;
    while i < |c|
      invariant 1 <= i
      invariant forall e :: e in sev <==> OnCycle(c[..if i <= |c| then i else |c|], e)
      invariant forall e :: e in sev ==> sev[e] == Error
    {
      sev := sev[Edge(c[i - 1], c[i]) := Error];
      assert forall k :: 0 < k < i ==> c[..i + 1][k] == c[..i][k];
      i := i + 1;
    }
    assert c[..|c|] == c;
  }

  method CountOutgoing(nodes: seq<Node>, edges: seq<Edge>) returns (outDeg: map<Id, nat>)
    ensures outDeg.Keys == IdSet(nodes)
    ensures forall v :: v in outDeg ==> outDeg[v] == |Succs(edges, v)|
  {
    outDeg := map[];
    for i := 0 to |nodes|
      invariant outDeg.Keys == IdSet(nodes[..i])
      invariant forall v :: v in outDeg ==> outDeg[v] == 0
    {
      outDeg := outDeg[nodes[i].id := 0];
      assert nodes[..i + 1] == nodes[..i] + [nodes[i]];
    }
    assert nodes[..|nodes|] == nodes;
    for i := 0 to |edges|
      invariant outDeg.Keys == IdSet(nodes)
      invariant forall v :: v in outDeg ==> outDeg[v] == |Succs(edges[..i], v)|
    {
      assert edges[..i + 1][..i] == edges[..i];
      if edges[i].src in outDeg {
        outDeg := outDeg[edges[i].src := outDeg[edges[i].src] + 1];
      }
    }
    assert edges[..|edges|] == edges;
  }

  method CollectDeadEnds(nodes: seq<Node>, edges: seq<Edge>) returns (ids: seq<Id>)
    ensures ids == DeadEnds(nodes, edges)
  {
    var outDeg := CountOutgoing(nodes, edges);
    ids := [];
    for i := 0 to |nodes|
      invariant ids == DeadEnds(nodes[..i], edges)
    {
      assert nodes[..i + 1][..i] == nodes[..i] && nodes[i] in nodes;
      if nodes[i].kind != Settle && outDeg[nodes[i].id] == 0 {
        ids := ids + [nodes[i].id];
      }
    }
    assert nodes[..|nodes|] == nodes;
  }

  method MarkBorrows(nodes: seq<Node>, edges: seq<Edge>, sev0: map<Edge, Severity>) returns (sev: map<Edge, Severity>)
    ensures forall e :: e in sev <==> e in sev0 || (e in edges && BorrowToSettle(nodes, e))
    ensures forall e :: e in sev ==> sev[e] == if e in edges && BorrowToSettle(nodes, e) then Warn else sev0[e]
  {
    sev := sev0;
    for i := 0 to |edges|
      invariant forall e :: e in sev <==> e in sev0 || (e in edges[..i] && BorrowToSettle(nodes, e))
      invariant forall e :: e in sev ==> sev[e] == if e in edges[..i] && BorrowToSettle(nodes, e) then Warn else sev0[e]
    {
      assert edges[..i + 1] == edges[..i] + [edges[i]];
      if BorrowToSettle(nodes, edges[i]) {
        sev := sev[edges[i] := Warn];
      }
    }
    assert edges[..|edges|] == edges;
  }

  method ReportCycle(nodes: seq<Node>, edges: seq<Edge>) returns (issues: seq<Issue>, sev: map<Edge, Severity>)
    ensures issues == CyclePart(nodes, edges)
    ensures forall e :: e in sev <==> OnReportedCycle(nodes, edges, e)
    ensures forall e :: e in sev ==> sev[e] == Error
  {
    issues, sev := [], map[];
    var cycle := DetectCycle(nodes, edges);
    if cycle.Some? && !OnlyRepeat(nodes, cycle.value) {
      issues := [CycleOutsideRepeat(cycle.value)];
      sev := MarkCycle(cycle.value);
    }
  }

  method ReportRest(nodes: seq<Node>, edges: seq<Edge>, issues0: seq<Issue>) returns (issues: seq<Issue>)
    ensures issues == issues0 + DeadEndPart(nodes, edges) + SettlePart(nodes) + MergePart(nodes, edges)
  {
    issues := issues0;
    var deadEnds := CollectDeadEnds(nodes, edges);
    if deadEnds != [] {
      issues := issues + [GoNowhere(deadEnds)];
    }
    assert issues == issues0 + DeadEndPart(nodes, edges);
    var settled := exists n :: n in nodes && n.kind == Settle;
    if !settled {
      issues := issues + [MissingSettle];
    }
    assert issues == issues0 + DeadEndPart(nodes, edges) + SettlePart(nodes);
    var pairs := CollectPairs(nodes, edges);
    if pairs != [] {
      issues := issues + [MergeTip(pairs)];
    }
  }

  /** The issues in the order they are shown, and the colour of each edge: a borrow that
      settles directly is a warning even on the reported cycle. */
  method DetectIssues(nodes: seq<Node>, edges: seq<Edge>) returns (issues: seq<Issue>, sev: map<Edge, Severity>)
    ensures issues == Issues(nodes, edges)
    ensures nodes == [] ==> sev == map[]
    ensures nodes != [] ==> forall e ::
              (e in sev && sev[e] == Warn <==> e in edges && BorrowToSettle(nodes, e))
              && (e in sev && sev[e] == Error
                  <==> OnReportedCycle(nodes, edges, e) && !(e in edges && BorrowToSettle(nodes, e)))
  {
    if |nodes| == 0 {
      return [], map[];
    }
    issues, sev := ReportCycle(nodes, edges);
    issues := ReportRest(nodes, edges, issues);
    sev := MarkBorrows(nodes, edges, sev);
  }
}
