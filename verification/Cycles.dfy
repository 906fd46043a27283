/** The three-colour depth-first search of `detectIssues`. */
module Cycles {
  import opened Wrappers
  import opened Graph

  datatype Color = White | Grey | Black

  type Coloring = map<Id, Color>

  datatype Search = Search(color: Coloring, cycle: Option<seq<Id>>)

  function Whites(color: Coloring): set<Id> {
    set v | v in color && color[v].White?
  }

  ghost function Greys(color: Coloring): set<Id> {
    set v | v in color && color[v].Grey?
  }

  ghost function Blacks(color: Coloring): set<Id> {
    set v | v in color && color[v].Black?
  }

  /** What one call of the inner `dfs` does to the colours, and the cycle it leaves behind. */
  function Visit(edges: seq<Edge>, id: Id, path: seq<Id>, color: Coloring): (s: Search)
    requires id in color && color[id].White?
    ensures Whites(s.color) <= Whites(color) - {id}
    decreases Whites(color), 0
  {
    var grey := color[id := Grey];
    assert Whites(grey) == Whites(color) - {id};
    var s := Scan(edges, Succs(edges, id), path, grey);
    if s.cycle.Some? then s else Search(s.color[id := Black], None)
  }

  function Scan(edges: seq<Edge>, nexts: seq<Id>, path: seq<Id>, color: Coloring): (s: Search)
    ensures Whites(s.color) <= Whites(color)
    decreases Whites(color), |nexts| + 1
  {
    if nexts == [] then Search(color, None)
    else
      var w := nexts[0];
      if w in color && color[w].Grey? then
        Search(color, Some(path[IndexOf(path, w)..] + [w]))
      else if w in color && color[w].White? then
        var s := Visit(edges, w, path + [w], color);
        if s.cycle.Some? then s
        else
          assert w in Whites(color);
          Scan(edges, nexts[1..], path, s.color)
      else Scan(edges, nexts[1..], path, color)
  }

  function SearchFrom(edges: seq<Edge>, nodes: seq<Node>, color: Coloring): Search {
    if nodes == [] then Search(color, None)
    else
      var id := nodes[0].id;
      if id in color && color[id].White? then
        var s := Visit(edges, id, [id], color);
        if s.cycle.Some? then s else SearchFrom(edges, nodes[1..], s.color)
      else SearchFrom(edges, nodes[1..], color)
  }

  function AllWhite(nodes: seq<Node>): Coloring {
    map v | v in IdSet(nodes) :: White
  }

  /** The cycle that the detector reports, if any. */
  function FindCycle(nodes: seq<Node>, edges: seq<Edge>): Option<seq<Id>> {
    SearchFrom(edges, nodes, AllWhite(nodes)).cycle
  }

  // ----- invariants of the search -----

  /** Finished vertices lead to finished vertices only, and carry no cycle. */
  ghost predicate Settled(edges: seq<Edge>, color: Coloring) {
    && (forall u, v :: u in Blacks(color) && v in color && Edge(u, v) in edges ==> v in Blacks(color))
    && !HasCycle(edges, Blacks(color))
  }

  /** The search stands at the end of `path`: its vertices are exactly the grey ones. */
  ghost predicate Ready(edges: seq<Edge>, path: seq<Id>, color: Coloring) {
    && IsWalk(edges, path)
    && Distinct(path)
    && Within(path, color.Keys)
    && (forall v :: v in Greys(color) <==> v in path)
    && Settled(edges, color)
  }

  /** Blackening a vertex whose successors are all black creates no black cycle. */
  lemma FinishVertex(edges: seq<Edge>, color: Coloring, id: Id)
    requires Settled(edges, color)
    requires id in Greys(color)
    requires forall w :: w in color && Edge(id, w) in edges ==> w in Blacks(color)
    ensures Settled(edges, color[id := Black])
    ensures Blacks(color[id := Black]) == Blacks(color) + {id}
  {
    var after := color[id := Black];
    assert Blacks(after) == Blacks(color) + {id};
    forall c | IsClosedWalk(edges, Blacks(after), c)
      ensures IsClosedWalk(edges, Blacks(color), c)
    {
      forall j | 0 <= j < |c|
        ensures c[j] in Blacks(color)
      {
        var k := if j == 0 then |c| - 1 else j;
        assert Hop(edges, c, k);
        assert c[k - 1] in Blacks(after);
      }
    }
  }

  lemma ExtendWalk(edges: seq<Edge>, p: seq<Id>, w: Id)
    requires IsWalk(edges, p) && Edge(p[|p| - 1], w) in edges
    ensures IsWalk(edges, p + [w])
  {
    forall i | 0 < i < |p + [w]|
      ensures Hop(edges, p + [w], i)
    {
      if i < |p| {
        assert Hop(edges, p, i);
      }
    }
  }

  /** Meeting a grey vertex closes a simple cycle of real edges. */
  lemma CloseCycle(edges: seq<Edge>, path: seq<Id>, color: Coloring, w: Id)
    requires Ready(edges, path, color)
    requires w in Greys(color) && Edge(path[|path| - 1], w) in edges
    ensures IsSimpleCycle(edges, color.Keys, path[IndexOf(path, w)..] + [w])
  {
    var k := IndexOf(path, w);
    var c := path[k..] + [w];
    forall i | 0 < i < |c|
      ensures Hop(edges, c, i)
    {
      if i < |c| - 1 {
        assert Hop(edges, path, k + i);
      }
    }
    assert c[..|c| - 1] == path[k..];
  }

  lemma VisitCorrect(edges: seq<Edge>, id: Id, path: seq<Id>, color: Coloring)
    requires id in color && color[id].White?
    requires Ready(edges, path, color[id := Grey]) && path[|path| - 1] == id
    ensures var s := Visit(edges, id, path, color);
            if s.cycle.Some? then IsSimpleCycle(edges, color.Keys, s.cycle.value)
            else
              && s.color.Keys == color.Keys
              && Greys(s.color) == Greys(color)
              && Blacks(color) + {id} <= Blacks(s.color)
              && Settled(edges, s.color)
    decreases Whites(color), 0
  {
    var grey := color[id := Grey];
    assert Whites(grey) == Whites(color) - {id};
    assert Blacks(grey) == Blacks(color);
    assert grey.Keys == color.Keys;
    ScanCorrect(edges, Succs(edges, id), path, grey);
    var s := Scan(edges, Succs(edges, id), path, grey);
    if s.cycle.None? {
      assert id == path[|path| - 1] && id in path;
      FinishVertex(edges, s.color, id);
      assert Greys(s.color[id := Black]) == Greys(s.color) - {id};
    }
  }

  lemma ScanCorrect(edges: seq<Edge>, nexts: seq<Id>, path: seq<Id>, color: Coloring)
    requires Ready(edges, path, color)
    requires forall w :: w in nexts ==> Edge(path[|path| - 1], w) in edges
    ensures var s := Scan(edges, nexts, path, color);
            if s.cycle.Some? then IsSimpleCycle(edges, color.Keys, s.cycle.value)
            else
              && s.color.Keys == color.Keys
              && Ready(edges, path, s.color)
              && Greys(s.color) == Greys(color)
              && Blacks(color) <= Blacks(s.color)
              && (forall w :: w in nexts && w in color ==> w in Blacks(s.color))
    decreases Whites(color), |nexts| + 1
  {
    if nexts != [] {
      var w := nexts[0];
      assert w in nexts && forall u :: u in nexts[1..] ==> u in nexts;
      if w in color && color[w].Grey? {
        CloseCycle(edges, path, color, w);
      } else if w in color && color[w].White? {
        EnterWhite(edges, path, color, w);
        VisitCorrect(edges, w, path + [w], color);
        var s := Visit(edges, w, path + [w], color);
        if s.cycle.None? {
          assert w in Whites(color);
          ScanCorrect(edges, nexts[1..], path, s.color);
        }
      } else {
        ScanCorrect(edges, nexts[1..], path, color);
      }
    }
  }

  lemma EnterWhite(edges: seq<Edge>, path: seq<Id>, color: Coloring, w: Id)
    requires Ready(edges, path, color)
    requires w in color && color[w].White? && Edge(path[|path| - 1], w) in edges
    ensures Ready(edges, path + [w], color[w := Grey])
  {
    ExtendWalk(edges, path, w);
    assert w !in path by { assert w !in Greys(color); }
    assert Blacks(color[w := Grey]) == Blacks(color);
  }

  lemma SearchFromCorrect(edges: seq<Edge>, nodes: seq<Node>, color: Coloring)
    requires Settled(edges, color) && Greys(color) == {}
    ensures var s := SearchFrom(edges, nodes, color);
            if s.cycle.Some? then IsSimpleCycle(edges, color.Keys, s.cycle.value)
            else
              && s.color.Keys == color.Keys
              && Settled(edges, s.color)
              && Blacks(color) <= Blacks(s.color)
              && (forall n :: n in nodes && n.id in color ==> n.id in Blacks(s.color))
  {
    if nodes != [] {
      var id := nodes[0].id;
      if id in color && color[id].White? {
        assert Blacks(color[id := Grey]) == Blacks(color);
        assert Greys(color[id := Grey]) == {id};
        VisitCorrect(edges, id, [id], color);
        var s := Visit(edges, id, [id], color);
        if s.cycle.None? {
          SearchFromCorrect(edges, nodes[1..], s.color);
        }
      } else {
        assert id in color ==> id in Blacks(color) || id in Greys(color);
        SearchFromCorrect(edges, nodes[1..], color);
      }
    }
  }

  lemma NoVerticesNoCycle(edges: seq<Edge>, vs: set<Id>)
    requires vs == {}
    ensures !HasCycle(edges, vs)
  {
    assert forall c :: IsClosedWalk(edges, vs, c) ==> c[0] in vs;
  }

  /** The detector is sound and complete: it reports a cycle exactly when the graph on
      the nodes has one, and what it reports is a simple cycle of real edges. */
  lemma FindCycleIffCyclic(nodes: seq<Node>, edges: seq<Edge>)
    ensures FindCycle(nodes, edges).Some? <==> HasCycle(edges, IdSet(nodes))
    ensures FindCycle(nodes, edges).Some? ==>
              IsSimpleCycle(edges, IdSet(nodes), FindCycle(nodes, edges).value)
  {
    var white := AllWhite(nodes);
    assert white.Keys == IdSet(nodes);
    assert Blacks(white) == {};
    assert Greys(white) == {};
    NoVerticesNoCycle(edges, Blacks(white));
    SearchFromCorrect(edges, nodes, white);
    var s := SearchFrom(edges, nodes, white);
    if s.cycle.None? {
      forall v | v in IdSet(nodes)
        ensures v in Blacks(s.color)
      {
        var n :| n in nodes && n.id == v;
      }
      assert Blacks(s.color) == IdSet(nodes);
    }
  }

  // ----- the search as the source runs it -----

  method BuildAdjacency(nodes: seq<Node>, edges: seq<Edge>) returns (adj: map<Id, seq<Id>>)
    ensures adj.Keys == IdSet(nodes)
    ensures forall v :: v in adj ==> adj[v] == Succs(edges, v)
  {
    adj := map[];
    for i := 0 to |nodes|
      invariant adj.Keys == IdSet(nodes[..i])
      invariant forall v :: v in adj ==> adj[v] == []
    {
      adj := adj[nodes[i].id := []];
      assert nodes[..i + 1] == nodes[..i] + [nodes[i]];
    }
    assert nodes[..|nodes|] == nodes;
    for i := 0 to |edges|
      invariant adj.Keys == IdSet(nodes)
      invariant forall v :: v in adj ==> adj[v] == Succs(edges[..i], v)
    {
      var e := edges[i];
      assert edges[..i + 1][..i] == edges[..i];
      if e.src in adj {
        adj := adj[e.src := adj[e.src] + [e.dst]];
      }
    }
    assert edges[..|edges|] == edges;
  }

  method Dfs(ghost edges: seq<Edge>, adj: map<Id, seq<Id>>, id: Id, path: seq<Id>, color0: Coloring)
    returns (found: bool, color: Coloring, cycleNodes: Option<seq<Id>>)
    requires id in color0 && color0[id].White?
    requires adj.Keys == color0.Keys && forall v :: v in adj ==> adj[v] == Succs(edges, v)
    ensures Search(color, cycleNodes) == Visit(edges, id, path, color0)
    ensures found <==> cycleNodes.Some?
    ensures color.Keys == color0.Keys
    decreases Whites(color0)
  {
    color := color0[id := Grey];
    assert Whites(color) == Whites(color0) - {id};
    for i := 0 to |adj[id]|
      invariant color.Keys == color0.Keys && Whites(color) <= Whites(color0) - {id}
      invariant Scan(edges, adj[id][i..], path, color)
             == Scan(edges, adj[id], path, color0[id := Grey])
    {
      var next := adj[id][i];
      if next in color && color[next].Grey? {
        return true, color, Some(path[IndexOf(path, next)..] + [next]);
      }
      if next in color && color[next].White? {
        var deeper;
        deeper, color, cycleNodes := Dfs(edges, adj, next, path + [next], color);
        if deeper {
          return true, color, cycleNodes;
        }
      }
    }
    return false, color[id := Black], None;
  }

  method DetectCycle(nodes: seq<Node>, edges: seq<Edge>) returns (cycleNodes: Option<seq<Id>>)
    ensures cycleNodes == FindCycle(nodes, edges)
    ensures cycleNodes.Some? <==> HasCycle(edges, IdSet(nodes))
  {
    FindCycleIffCyclic(nodes, edges);
    var adj := BuildAdjacency(nodes, edges);
    var color := map v | v in adj :: White;
    assert color == AllWhite(nodes);
    for i := 0 to |nodes|
      invariant color.Keys == adj.Keys
      invariant SearchFrom(edges, nodes[i..], color).cycle == FindCycle(nodes, edges)
    {
      var id := nodes[i].id;
      if color[id].White? {
        var found;
        found, color, cycleNodes := Dfs(edges, adj, id, [id], color);
        if found {
          return cycleNodes;
        }
      }
    }
    return None;
  }
}
