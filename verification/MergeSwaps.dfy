/** The "merge swaps" rewrite: the second swap of each adjacent pair is removed and its
    outgoing edges are handed to the first. */
module MergeSwaps {
  import opened Wrappers
  import opened Graph
  import opened Traversal

  /** Edges from a swap to a swap, in edge order; each stands for a pair to merge. */
  function SwapPairs(nodes: seq<Node>, edges: seq<Edge>): (r: seq<Edge>)
    ensures forall e :: e in r <==> e in edges && HasKind(nodes, e.src, Swap) && HasKind(nodes, e.dst, Swap)
  {
    if edges == [] then []
    else
      var e := edges[|edges| - 1];
      assert edges == edges[..|edges| - 1] + [e];
      SwapPairs(nodes, edges[..|edges| - 1])
      + if HasKind(nodes, e.src, Swap) && HasKind(nodes, e.dst, Swap) then [e] else []
  }

  function Seconds(pairs: seq<Edge>): set<Id> {
    set p | p in pairs :: p.dst
  }

  function KeepNodes(nodes: seq<Node>, removed: set<Id>): (r: seq<Node>)
    ensures forall n :: n in r <==> n in nodes && n.id !in removed
  {
    if nodes == [] then []
    else
      var n := nodes[|nodes| - 1];
      assert nodes == nodes[..|nodes| - 1] + [n];
      KeepNodes(nodes[..|nodes| - 1], removed) + if n.id in removed then [] else [n]
  }

  function KeepEdges(edges: seq<Edge>, removed: set<Id>): (r: seq<Edge>)
    ensures forall e :: e in r <==> e in edges && e.src !in removed && e.dst !in removed
  {
    if edges == [] then []
    else
      var e := edges[|edges| - 1];
      assert edges == edges[..|edges| - 1] + [e];
      KeepEdges(edges[..|edges| - 1], removed) + if e.src in removed || e.dst in removed then [] else [e]
  }

  /** Links `a` to every target it is not linked to yet. */
  function LinkAll(out: seq<Edge>, a: Id, targets: seq<Id>): seq<Edge> {
    if targets == [] then out
    else
      var d := targets[|targets| - 1];
      var r := LinkAll(out, a, targets[..|targets| - 1]);
      if Edge(a, d) in r then r else r + [Edge(a, d)]
  }

  function Rejoin(out: seq<Edge>, edges: seq<Edge>, pairs: seq<Edge>): seq<Edge> {
    if pairs == [] then out
    else
      var p := pairs[|pairs| - 1];
      LinkAll(Rejoin(out, edges, pairs[..|pairs| - 1]), p.src, Succs(edges, p.dst))
  }

  function MergedNodes(nodes: seq<Node>, edges: seq<Edge>): seq<Node> {
    KeepNodes(nodes, Seconds(SwapPairs(nodes, edges)))
  }

  function MergedEdges(nodes: seq<Node>, edges: seq<Edge>): seq<Edge> {
    var pairs := SwapPairs(nodes, edges);
    Rejoin(KeepEdges(edges, Seconds(pairs)), edges, pairs)
  }

  lemma {:induction false} LinkAllMembers(out: seq<Edge>, a: Id, targets: seq<Id>)
    ensures forall e :: e in LinkAll(out, a, targets) <==> e in out || (e.src == a && e.dst in targets)
  {
    if targets != [] {
      LinkAllMembers(out, a, targets[..|targets| - 1]);
      assert targets == targets[..|targets| - 1] + [targets[|targets| - 1]];
    }
  }

  lemma {:induction false} RejoinMembers(out: seq<Edge>, edges: seq<Edge>, pairs: seq<Edge>)
    ensures forall e :: e in Rejoin(out, edges, pairs)
                        <==> e in out || exists p :: p in pairs && p.src == e.src && Edge(p.dst, e.dst) in edges
  {
    if pairs != [] {
      var p, rest := pairs[|pairs| - 1], pairs[..|pairs| - 1];
      assert pairs == rest + [p];
      RejoinMembers(out, edges, rest);
      LinkAllMembers(Rejoin(out, edges, rest), p.src, Succs(edges, p.dst));
    }
  }

  ghost predicate Bridged(nodes: seq<Node>, edges: seq<Edge>, a: Id, d: Id) {
    exists b :: Edge(a, b) in SwapPairs(nodes, edges) && Edge(b, d) in edges
  }

  /** An edge of the result is a surviving edge or bridges a removed swap. */
  lemma MergedEdgeIff(nodes: seq<Node>, edges: seq<Edge>, e: Edge)
    ensures e in MergedEdges(nodes, edges)
            <==> var removed := Seconds(SwapPairs(nodes, edges));
                 || (e in edges && e.src !in removed && e.dst !in removed)
                 || Bridged(nodes, edges, e.src, e.dst)
  {
    var pairs := SwapPairs(nodes, edges);
    RejoinMembers(KeepEdges(edges, Seconds(pairs)), edges, pairs);
    if p :| p in pairs && p.src == e.src && Edge(p.dst, e.dst) in edges {
      assert p == Edge(e.src, p.dst);
    }
    if b :| Edge(e.src, b) in pairs && Edge(b, e.dst) in edges {
      assert Edge(e.src, b).dst == b;
    }
  }

  // ----- closedness -----

  /** No removed swap feeds another swap. */
  ghost predicate NoSwapChain(nodes: seq<Node>, edges: seq<Edge>) {
    var pairs := SwapPairs(nodes, edges);
    forall p, q :: p in pairs && q in pairs ==> p.dst != q.src
  }

  lemma KeptIds(nodes: seq<Node>, edges: seq<Edge>)
    ensures IdSet(MergedNodes(nodes, edges)) == IdSet(nodes) - Seconds(SwapPairs(nodes, edges))
  {
    var kept := MergedNodes(nodes, edges);
    var removed := Seconds(SwapPairs(nodes, edges));
    forall v
      ensures v in IdSet(kept) <==> v in IdSet(nodes) && v !in removed
    {
      if v in IdSet(kept) {
        var n :| n in kept && n.id == v;
      }
      if v in IdSet(nodes) && v !in removed {
        var n :| n in nodes && n.id == v;
        assert n in kept;
      }
    }
  }

  /** The merged graph is closed exactly when no three swaps stand in a chain. */
  lemma MergeClosedIff(nodes: seq<Node>, edges: seq<Edge>)
    requires Closed(nodes, edges)
    ensures Closed(MergedNodes(nodes, edges), MergedEdges(nodes, edges)) <==> NoSwapChain(nodes, edges)
  {
    var pairs := SwapPairs(nodes, edges);
    var removed := Seconds(pairs);
    KeptIds(nodes, edges);
    if NoSwapChain(nodes, edges) {
      forall e | e in MergedEdges(nodes, edges)
        ensures e.src in IdSet(nodes) - removed && e.dst in IdSet(nodes) - removed
      {
        MergedEdgeIff(nodes, edges, e);
        if Bridged(nodes, edges, e.src, e.dst) {
          BridgeSurvives(nodes, edges, e.src, e.dst);
        }
      }
    } else {
      var p, q :| p in pairs && q in pairs && p.dst == q.src;
      var e := Edge(p.src, q.dst);
      assert p == Edge(p.src, p.dst) && q == Edge(p.dst, q.dst);
      assert Bridged(nodes, edges, e.src, e.dst);
      MergedEdgeIff(nodes, edges, e);
      assert q.dst in removed;
    }
  }

  lemma BridgeSurvives(nodes: seq<Node>, edges: seq<Edge>, a: Id, d: Id)
    requires Closed(nodes, edges) && NoSwapChain(nodes, edges)
    requires Bridged(nodes, edges, a, d)
    ensures a in IdSet(nodes) - Seconds(SwapPairs(nodes, edges))
    ensures d in IdSet(nodes) - Seconds(SwapPairs(nodes, edges))
  {
    var pairs := SwapPairs(nodes, edges);
    var b :| Edge(a, b) in pairs && Edge(b, d) in edges;
    assert forall p :: p in pairs ==> p.dst != Edge(a, b).src;
    assert Edge(b, d) !in pairs;
  }

  // ----- reachability -----

  /** The edges without those by which a node other than a swap feeds a removed swap. */
  function FedEdges(nodes: seq<Node>, edges: seq<Edge>, removed: set<Id>): (r: seq<Edge>)
    ensures forall e :: e in r <==> e in edges && (e.dst in removed ==> HasKind(nodes, e.src, Swap))
  {
    if edges == [] then []
    else
      var e := edges[|edges| - 1];
      assert edges == edges[..|edges| - 1] + [e];
      FedEdges(nodes, edges[..|edges| - 1], removed)
      + if e.dst in removed && !HasKind(nodes, e.src, Swap) then [] else [e]
  }

  function Fed(nodes: seq<Node>, edges: seq<Edge>): seq<Edge> {
    FedEdges(nodes, edges, Seconds(SwapPairs(nodes, edges)))
  }

  lemma RemovedIsSwap(nodes: seq<Node>, edges: seq<Edge>, x: Id)
    requires x in Seconds(SwapPairs(nodes, edges))
    ensures HasKind(nodes, x, Swap)
  {
    var p :| p in SwapPairs(nodes, edges) && p.dst == x;
  }

  /** Without chains, what feeds a removed swap survives. */
  lemma FeederSurvives(nodes: seq<Node>, edges: seq<Edge>, y: Id, x: Id)
    requires NoSwapChain(nodes, edges)
    requires Edge(y, x) in edges && x in Seconds(SwapPairs(nodes, edges))
    ensures y !in Seconds(SwapPairs(nodes, edges))
  {
    var pairs := SwapPairs(nodes, edges);
    RemovedIsSwap(nodes, edges, x);
    if HasKind(nodes, y, Swap) {
      assert Edge(y, x) in pairs;
      assert forall p :: p in pairs ==> p.dst != Edge(y, x).src;
    } else if y in Seconds(pairs) {
      RemovedIsSwap(nodes, edges, y);
    }
  }

  lemma LastEdge(edges: seq<Edge>, u: Id, v: Id, n: nat) returns (w: Id, k: nat)
    requires WalkTo(edges, {u}, v, n) && (n > 0 || v != u)
    ensures k + 1 == n && Edge(w, v) in edges && WalkTo(edges, {u}, w, k)
  {
    w :| Edge(w, v) in edges && WalkTo(edges, {u}, w, n - 1);
    k := n - 1;
  }

  lemma MergedEdgeIsWalk(nodes: seq<Node>, edges: seq<Edge>, w: Id, v: Id) returns (k: nat)
    requires Edge(w, v) in MergedEdges(nodes, edges)
    ensures k > 0 && WalkTo(Fed(nodes, edges), {w}, v, k)
  {
    var fed := Fed(nodes, edges);
    MergedEdgeIff(nodes, edges, Edge(w, v));
    assert WalkTo(fed, {w}, w, 0);
    if Bridged(nodes, edges, w, v) {
      var b :| Edge(w, b) in SwapPairs(nodes, edges) && Edge(b, v) in edges;
      WalkStep(fed, {w}, w, b, 0);
      WalkStep(fed, {w}, b, v, 1);
      k := 2;
    } else {
      WalkStep(fed, {w}, w, v, 0);
      k := 1;
    }
  }

  /** The rewrite adds no connection: what it joins was joined along fed edges. */
  lemma {:induction false} MergeAddsNoPath(nodes: seq<Node>, edges: seq<Edge>, u: Id, v: Id, n: nat) returns (m: nat)
    requires WalkTo(MergedEdges(nodes, edges), {u}, v, n)
    ensures WalkTo(Fed(nodes, edges), {u}, v, m) && WalkTo(edges, {u}, v, m) && m >= n
    decreases n
  {
    if n == 0 {
      m := 0;
    } else {
      var w, k := LastEdge(MergedEdges(nodes, edges), u, v, n);
      var i := MergeAddsNoPath(nodes, edges, u, w, k);
      m := ExtendFed(nodes, edges, u, w, v, i);
    }
  }

  lemma ExtendFed(nodes: seq<Node>, edges: seq<Edge>, u: Id, w: Id, v: Id, i: nat) returns (m: nat)
    requires WalkTo(Fed(nodes, edges), {u}, w, i) && Edge(w, v) in MergedEdges(nodes, edges)
    ensures m > i && WalkTo(Fed(nodes, edges), {u}, v, m) && WalkTo(edges, {u}, v, m)
  {
    var j := MergedEdgeIsWalk(nodes, edges, w, v);
    WalkJoin(Fed(nodes, edges), {u}, w, v, i, j);
    m := i + j;
    WalkWidens(Fed(nodes, edges), edges, {u}, v, m);
  }

  lemma SurvivingEdge(nodes: seq<Node>, edges: seq<Edge>, x: Id, v: Id)
    requires Edge(x, v) in edges
    requires x !in Seconds(SwapPairs(nodes, edges)) && v !in Seconds(SwapPairs(nodes, edges))
    ensures Leads(MergedEdges(nodes, edges), x, v)
  {
    MergedEdgeIff(nodes, edges, Edge(x, v));
    LeadsStep(MergedEdges(nodes, edges), x, v);
  }

  /** A swap that feeds a removed swap inherits its successors. */
  lemma InheritedEdge(nodes: seq<Node>, edges: seq<Edge>, y: Id, x: Id, d: Id)
    requires Edge(y, x) in Fed(nodes, edges) && Edge(x, d) in edges
    requires x in Seconds(SwapPairs(nodes, edges))
    ensures Leads(MergedEdges(nodes, edges), y, d)
  {
    RemovedIsSwap(nodes, edges, x);
    assert Edge(y, x).dst == x;
    assert Edge(y, x) in SwapPairs(nodes, edges);
    assert Bridged(nodes, edges, y, d);
    MergedEdgeIff(nodes, edges, Edge(y, d));
    LeadsStep(MergedEdges(nodes, edges), y, d);
  }

  /** The last surviving vertex before `v` on a fed walk, which still leads to `v`. */
  lemma LastSurvivor(nodes: seq<Node>, edges: seq<Edge>, u: Id, v: Id, n: nat) returns (y: Id, k: nat)
    requires NoSwapChain(nodes, edges)
    requires n > 0 && WalkTo(Fed(nodes, edges), {u}, v, n)
    requires u !in Seconds(SwapPairs(nodes, edges)) && v !in Seconds(SwapPairs(nodes, edges))
    ensures y !in Seconds(SwapPairs(nodes, edges)) && Leads(MergedEdges(nodes, edges), y, v)
    ensures k < n && WalkTo(Fed(nodes, edges), {u}, y, k)
  {
    var x, j := LastEdge(Fed(nodes, edges), u, v, n);
    if x !in Seconds(SwapPairs(nodes, edges)) {
      SurvivingEdge(nodes, edges, x, v);
      y, k := x, j;
    } else {
      y, k := LastEdge(Fed(nodes, edges), u, x, j);
      FeederSurvives(nodes, edges, y, x);
      InheritedEdge(nodes, edges, y, x, v);
    }
  }

  /** Survivors joined along fed edges stay connected. */
  lemma {:induction false} MergeKeepsPath(nodes: seq<Node>, edges: seq<Edge>, u: Id, v: Id, n: nat)
    requires NoSwapChain(nodes, edges)
    requires n > 0 && WalkTo(Fed(nodes, edges), {u}, v, n)
    requires u !in Seconds(SwapPairs(nodes, edges)) && v !in Seconds(SwapPairs(nodes, edges))
    ensures Leads(MergedEdges(nodes, edges), u, v)
    decreases n
  {
    var y, k := LastSurvivor(nodes, edges, u, v, n);
    if k > 0 {
      MergeKeepsPath(nodes, edges, u, y, k);
      LeadsTransitive(MergedEdges(nodes, edges), u, y, v);
    }
  }

  /** What the merge leaves connected: survivors reach each other afterwards exactly if they
      did along fed edges before. */
  lemma MergeReachIsFed(nodes: seq<Node>, edges: seq<Edge>, u: Id, v: Id)
    requires NoSwapChain(nodes, edges)
    requires u !in Seconds(SwapPairs(nodes, edges)) && v !in Seconds(SwapPairs(nodes, edges))
    ensures Leads(MergedEdges(nodes, edges), u, v) <==> Leads(Fed(nodes, edges), u, v)
  {
    var fed, after := Fed(nodes, edges), MergedEdges(nodes, edges);
    if Leads(fed, u, v) {
      var n: nat :| n > 0 && WalkTo(fed, {u}, v, n);
      MergeKeepsPath(nodes, edges, u, v, n);
    }
    if Leads(after, u, v) {
      var n: nat :| n > 0 && WalkTo(after, {u}, v, n);
      var m := MergeAddsNoPath(nodes, edges, u, v, n);
      assert m > 0;
    }
  }

  // ----- when nothing is lost -----

  /** Where a node other than a swap feeds a removed swap, fed edges lead it to the surviving
      successors of that swap some other way. */
  ghost predicate Bypassed(nodes: seq<Node>, edges: seq<Edge>) {
    forall y, x, d ::
      && Edge(y, x) in edges && Edge(x, d) in edges
      && x in Seconds(SwapPairs(nodes, edges)) && !HasKind(nodes, y, Swap)
      && d !in Seconds(SwapPairs(nodes, edges))
      ==> Leads(Fed(nodes, edges), y, d)
  }

  /** Every edge into a removed swap comes from a swap. */
  ghost predicate OnlySwapsFeed(nodes: seq<Node>, edges: seq<Edge>) {
    forall e :: e in edges && e.dst in Seconds(SwapPairs(nodes, edges)) ==> HasKind(nodes, e.src, Swap)
  }

  lemma SwapFedIsBypassed(nodes: seq<Node>, edges: seq<Edge>)
    requires OnlySwapsFeed(nodes, edges)
    ensures Bypassed(nodes, edges)
  {
    forall y, x | Edge(y, x) in edges && x in Seconds(SwapPairs(nodes, edges))
      ensures HasKind(nodes, y, Swap)
    {
      assert Edge(y, x).dst == x;
    }
  }

  /** What feeds a removed swap leads to its surviving successors along fed edges. */
  lemma BypassStep(nodes: seq<Node>, edges: seq<Edge>, y: Id, x: Id, d: Id)
    requires Bypassed(nodes, edges)
    requires Edge(y, x) in edges && Edge(x, d) in edges
    requires x in Seconds(SwapPairs(nodes, edges)) && d !in Seconds(SwapPairs(nodes, edges))
    ensures Leads(Fed(nodes, edges), y, d)
  {
    var fed := Fed(nodes, edges);
    if HasKind(nodes, y, Swap) {
      LeadsStep(fed, y, x);
      LeadsStep(fed, x, d);
      LeadsTransitive(fed, y, x, d);
    }
  }

  /** With every removed swap bypassed, the edges that are not fed are not needed. */
  lemma {:induction false} FedSuffices(nodes: seq<Node>, edges: seq<Edge>, u: Id, v: Id, n: nat)
    requires NoSwapChain(nodes, edges) && Bypassed(nodes, edges)
    requires n > 0 && WalkTo(edges, {u}, v, n)
    requires u !in Seconds(SwapPairs(nodes, edges)) && v !in Seconds(SwapPairs(nodes, edges))
    ensures Leads(Fed(nodes, edges), u, v)
    decreases n
  {
    var fed := Fed(nodes, edges);
    var y, k := LastEdge(edges, u, v, n);
    if y !in Seconds(SwapPairs(nodes, edges)) {
      LeadsStep(fed, y, v);
    } else {
      var x := y;
      y, k := LastEdge(edges, u, x, k);
      FeederSurvives(nodes, edges, y, x);
      BypassStep(nodes, edges, y, x, v);
    }
    if k > 0 {
      FedSuffices(nodes, edges, u, y, k);
      LeadsTransitive(fed, u, y, v);
    }
  }

  lemma FedLeads(nodes: seq<Node>, edges: seq<Edge>, u: Id, v: Id)
    requires Leads(Fed(nodes, edges), u, v)
    ensures Leads(edges, u, v)
  {
    var n: nat :| n > 0 && WalkTo(Fed(nodes, edges), {u}, v, n);
    WalkWidens(Fed(nodes, edges), edges, {u}, v, n);
  }

  lemma MergeReach(nodes: seq<Node>, edges: seq<Edge>, u: Id, v: Id)
    requires NoSwapChain(nodes, edges) && Bypassed(nodes, edges)
    requires u !in Seconds(SwapPairs(nodes, edges)) && v !in Seconds(SwapPairs(nodes, edges))
    ensures Leads(edges, u, v) <==> Leads(MergedEdges(nodes, edges), u, v)
  {
    MergeReachIsFed(nodes, edges, u, v);
    if Leads(edges, u, v) {
      var n: nat :| n > 0 && WalkTo(edges, {u}, v, n);
      FedSuffices(nodes, edges, u, v, n);
    }
    if Leads(Fed(nodes, edges), u, v) {
      FedLeads(nodes, edges, u, v);
    }
  }

  /** On a closed result, connection among survivors is unchanged exactly when every removed
      swap is bypassed before the merge. */
  lemma MergePreservesReachIff(nodes: seq<Node>, edges: seq<Edge>)
    requires NoSwapChain(nodes, edges)
    ensures Bypassed(nodes, edges) <==>
            forall u, v ::
              u !in Seconds(SwapPairs(nodes, edges)) && v !in Seconds(SwapPairs(nodes, edges))
              ==> (Leads(edges, u, v) <==> Leads(MergedEdges(nodes, edges), u, v))
  {
    var removed := Seconds(SwapPairs(nodes, edges));
    if Bypassed(nodes, edges) {
      forall u, v | u !in removed && v !in removed
        ensures Leads(edges, u, v) <==> Leads(MergedEdges(nodes, edges), u, v)
      {
        MergeReach(nodes, edges, u, v);
      }
    } else {
      var y, x, d :| Edge(y, x) in edges && Edge(x, d) in edges && x in removed
                     && !HasKind(nodes, y, Swap) && d !in removed && !Leads(Fed(nodes, edges), y, d);
      LosesWay(nodes, edges, y, x, d);
    }
  }

  lemma LosesWay(nodes: seq<Node>, edges: seq<Edge>, y: Id, x: Id, d: Id)
    requires NoSwapChain(nodes, edges)
    requires Edge(y, x) in edges && Edge(x, d) in edges && !Leads(Fed(nodes, edges), y, d)
    requires x in Seconds(SwapPairs(nodes, edges)) && d !in Seconds(SwapPairs(nodes, edges))
    ensures y !in Seconds(SwapPairs(nodes, edges))
    ensures Leads(edges, y, d) && !Leads(MergedEdges(nodes, edges), y, d)
  {
    FeederSurvives(nodes, edges, y, x);
    MergeReachIsFed(nodes, edges, y, d);
    LeadsStep(edges, y, x);
    LeadsStep(edges, x, d);
    LeadsTransitive(edges, y, x, d);
  }

  // ----- cycles -----

  /** A cycle through a removed swap passes a survivor as well. */
  lemma SurvivorOnCycle(nodes: seq<Node>, edges: seq<Edge>, es: seq<Edge>, v: Id) returns (y: Id)
    requires Closed(nodes, edges) && NoSwapChain(nodes, edges)
    requires forall e :: e in es ==> e in edges
    requires v in IdSet(nodes) && Leads(es, v, v)
    ensures y in IdSet(nodes) - Seconds(SwapPairs(nodes, edges)) && Leads(es, y, y)
  {
    y := v;
    if v in Seconds(SwapPairs(nodes, edges)) {
      var n: nat :| n > 0 && WalkTo(es, {v}, v, n);
      y :| Edge(y, v) in es && WalkTo(es, {v}, y, n - 1);
      FeederSurvives(nodes, edges, y, v);
      LeadsStep(es, y, v);
      assert n - 1 > 0;
      assert Leads(es, v, y);
      LeadsTransitive(es, y, v, y);
      assert Edge(y, v).src in IdSet(nodes);
    }
  }

  /** Some subset of the edges of a closed graph is cyclic exactly when a survivor leads back
      to itself along it. */
  lemma CyclicIffSurvivorLeadsBack(nodes: seq<Node>, edges: seq<Edge>, es: seq<Edge>)
    requires Closed(nodes, edges) && NoSwapChain(nodes, edges)
    requires forall e :: e in es ==> e in edges
    ensures HasCycle(es, IdSet(nodes))
            <==> exists y :: y in IdSet(nodes) - Seconds(SwapPairs(nodes, edges)) && Leads(es, y, y)
  {
    CycleIffLeadsBack(es, IdSet(nodes));
    if v :| v in IdSet(nodes) && Leads(es, v, v) {
      var y := SurvivorOnCycle(nodes, edges, es, v);
    }
  }

  /** The merged graph is cyclic exactly when the fed edges were. */
  lemma MergeCyclesAreFed(nodes: seq<Node>, edges: seq<Edge>)
    requires Closed(nodes, edges) && NoSwapChain(nodes, edges)
    ensures HasCycle(MergedEdges(nodes, edges), IdSet(MergedNodes(nodes, edges)))
            <==> HasCycle(Fed(nodes, edges), IdSet(nodes))
  {
    var after, ids := MergedEdges(nodes, edges), IdSet(MergedNodes(nodes, edges));
    MergeClosedIff(nodes, edges);
    KeptIds(nodes, edges);
    CycleIffLeadsBack(after, ids);
    CyclicIffSurvivorLeadsBack(nodes, edges, Fed(nodes, edges));
    forall y | y in ids
      ensures Leads(after, y, y) <==> Leads(Fed(nodes, edges), y, y)
    {
      MergeReachIsFed(nodes, edges, y, y);
    }
  }

  /** With every removed swap bypassed, the merged graph is cyclic exactly when the graph was. */
  lemma MergePreservesCycles(nodes: seq<Node>, edges: seq<Edge>)
    requires Closed(nodes, edges) && NoSwapChain(nodes, edges) && Bypassed(nodes, edges)
    ensures HasCycle(edges, IdSet(nodes))
            <==> HasCycle(MergedEdges(nodes, edges), IdSet(MergedNodes(nodes, edges)))
  {
    MergeCyclesAreFed(nodes, edges);
    CyclicIffSurvivorLeadsBack(nodes, edges, edges);
    CyclicIffSurvivorLeadsBack(nodes, edges, Fed(nodes, edges));
    forall y | y in IdSet(nodes) - Seconds(SwapPairs(nodes, edges))
      ensures Leads(edges, y, y) <==> Leads(Fed(nodes, edges), y, y)
    {
      MergeReach(nodes, edges, y, y);
      MergeReachIsFed(nodes, edges, y, y);
    }
  }

  // ----- the tip -----

  lemma {:induction false} FindInFront(front: seq<Node>, n: Node, id: Id)
    ensures FindNode(front + [n], id)
         == if FindNode(front, id).Some? then FindNode(front, id) else if n.id == id then Some(n) else None
  {
    if front != [] {
      assert (front + [n])[1..] == front[1..] + [n];
      FindInFront(front[1..], n, id);
    }
  }

  lemma KeepLast(front: seq<Node>, n: Node, removed: set<Id>)
    ensures KeepNodes(front + [n], removed) == KeepNodes(front, removed) + if n.id in removed then [] else [n]
  {
    assert (front + [n])[..|front + [n]| - 1] == front;
  }

  lemma FindWithLast(kept: seq<Node>, front: seq<Node>, n: Node, removed: set<Id>, id: Id)
    requires id !in removed && FindNode(kept, id) == FindNode(front, id)
    ensures FindNode(kept + if n.id in removed then [] else [n], id) == FindNode(front + [n], id)
  {
    FindInFront(front, n, id);
    if n.id in removed {
      assert kept + [] == kept;
    } else {
      FindInFront(kept, n, id);
    }
  }

  lemma FindKeptLast(front: seq<Node>, n: Node, removed: set<Id>, id: Id)
    requires id !in removed && FindNode(KeepNodes(front, removed), id) == FindNode(front, id)
    ensures FindNode(KeepNodes(front + [n], removed), id) == FindNode(front + [n], id)
  {
    FindWithLast(KeepNodes(front, removed), front, n, removed, id);
    KeepLast(front, n, removed);
  }

  /** Survivors keep their kind. */
  lemma {:induction false} FindKept(nodes: seq<Node>, removed: set<Id>, id: Id)
    requires id !in removed
    ensures FindNode(KeepNodes(nodes, removed), id) == FindNode(nodes, id)
    decreases |nodes|
  {
    if nodes != [] {
      var front, n := SplitLast(nodes);
      FindKept(front, removed, id);
      FindKeptLast(front, n, removed, id);
    }
  }

  lemma NoEdges(s: seq<Edge>)
    ensures s == [] <==> forall e :: e !in s
  {
    if s != [] {
      assert s[0] in s;
    }
  }

  /** Merging without a chain settles the tip: no swap feeds a swap afterwards. */
  lemma MergeClearsTip(nodes: seq<Node>, edges: seq<Edge>)
    requires Closed(nodes, edges) && NoSwapChain(nodes, edges)
    ensures SwapPairs(MergedNodes(nodes, edges), MergedEdges(nodes, edges)) == []
  {
    var left := SwapPairs(MergedNodes(nodes, edges), MergedEdges(nodes, edges));
    forall e ensures e !in left {
      if e in MergedEdges(nodes, edges) {
        MergedEdgeIsNoPair(nodes, edges, e);
      }
    }
    NoEdges(left);
  }

  /** An edge of the result ends at survivors and was no pair, or hands on an edge that was none. */
  lemma MergedEdgeEnds(nodes: seq<Node>, edges: seq<Edge>, e: Edge)
    requires Closed(nodes, edges) && NoSwapChain(nodes, edges) && e in MergedEdges(nodes, edges)
    ensures e.src !in Seconds(SwapPairs(nodes, edges)) && e.dst !in Seconds(SwapPairs(nodes, edges))
    ensures !(HasKind(nodes, e.src, Swap) && HasKind(nodes, e.dst, Swap))
  {
    var pairs := SwapPairs(nodes, edges);
    MergedEdgeIff(nodes, edges, e);
    if Bridged(nodes, edges, e.src, e.dst) {
      BridgeSurvives(nodes, edges, e.src, e.dst);
      var b :| Edge(e.src, b) in pairs && Edge(b, e.dst) in edges;
      assert Edge(b, e.dst) in pairs <==> HasKind(nodes, e.dst, Swap);
      assert Edge(e.src, b).dst != Edge(b, e.dst).src || Edge(b, e.dst) !in pairs;
    }
  }

  lemma MergedEdgeIsNoPair(nodes: seq<Node>, edges: seq<Edge>, e: Edge)
    requires Closed(nodes, edges) && NoSwapChain(nodes, edges) && e in MergedEdges(nodes, edges)
    ensures !(HasKind(MergedNodes(nodes, edges), e.src, Swap) && HasKind(MergedNodes(nodes, edges), e.dst, Swap))
  {
    MergedEdgeEnds(nodes, edges, e);
    FindKept(nodes, Seconds(SwapPairs(nodes, edges)), e.src);
    FindKept(nodes, Seconds(SwapPairs(nodes, edges)), e.dst);
  }

  // ----- the loops of the source -----

  method CollectPairs(nodes: seq<Node>, edges: seq<Edge>) returns (pairs: seq<Edge>)
    ensures pairs == SwapPairs(nodes, edges)
  {
    pairs := [];
    for i := 0 to |edges|
      invariant pairs == SwapPairs(nodes, edges[..i])
    {
      assert edges[..i + 1][..i] == edges[..i];
      var a, b := FindNode(nodes, edges[i].src), FindNode(nodes, edges[i].dst);
      if a.Some? && a.value.kind == Swap && b.Some? && b.value.kind == Swap {
        pairs := pairs + [edges[i]];
      }
    }
    assert edges[..|edges|] == edges;
  }

  method LinkDownstream(out0: seq<Edge>, a: Id, downstream: seq<Id>) returns (out: seq<Edge>)
    ensures out == LinkAll(out0, a, downstream)
  {
    out := out0;
    for j := 0 to |downstream|
      invariant out == LinkAll(out0, a, downstream[..j])
    {
      assert downstream[..j + 1][..j] == downstream[..j];
      if Edge(a, downstream[j]) !in out {
        out := out + [Edge(a, downstream[j])];
      }
    }
    assert downstream[..|downstream|] == downstream;
  }

  method HandDown(out0: seq<Edge>, edges: seq<Edge>, pairs: seq<Edge>) returns (out: seq<Edge>)
    ensures out == Rejoin(out0, edges, pairs)
  {
    out := out0;
    for i := 0 to |pairs|
      invariant out == Rejoin(out0, edges, pairs[..i])
    {
      assert pairs[..i + 1][..i] == pairs[..i];
      out := LinkDownstream(out, pairs[i].src, Succs(edges, pairs[i].dst));
    }
    assert pairs[..|pairs|] == pairs;
  }

  method ApplyMerge(nodes: seq<Node>, edges: seq<Edge>) returns (nodes': seq<Node>, edges': seq<Edge>)
    ensures nodes' == MergedNodes(nodes, edges) && edges' == MergedEdges(nodes, edges)
  {
    var pairs := CollectPairs(nodes, edges);
    var removed := set p | p in pairs :: p.dst;
    nodes' := KeepNodes(nodes, removed);
    edges' := HandDown(KeepEdges(edges, removed), edges, pairs);
  }
}
