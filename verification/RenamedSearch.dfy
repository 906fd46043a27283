/** The cycle search on a renamed graph finds the renamed cycle. */
module RenamedSearch {
  import opened Wrappers
  import opened Graph
  import opened Cycles
  import opened Renaming

  /** `color'` colours the renamed vertices as `color` colours the vertices. */
  ghost predicate SameColors(f: Id -> Id, vs: set<Id>, color: Coloring, color': Coloring) {
    && (forall v :: v in color ==> v in vs)
    && (forall v :: v in vs ==> (v in color <==> f(v) in color'))
    && (forall v :: v in color ==> color'[f(v)] == color[v])
  }

  function MapCycle(f: Id -> Id, c: Option<seq<Id>>): Option<seq<Id>> {
    if c.Some? then Some(MapIds(f, c.value)) else None
  }

  ghost predicate SameSearch(f: Id -> Id, vs: set<Id>, s: Search, s': Search) {
    && s'.cycle == MapCycle(f, s.cycle)
    && SameColors(f, vs, s.color, s'.color)
  }

  ghost predicate AllIn(vs: set<Id>, s: seq<Id>) {
    forall v :: v in s ==> v in vs
  }

  lemma Recolor(f: Id -> Id, vs: set<Id>, color: Coloring, color': Coloring, v: Id, c: Color)
    requires Injective(f, vs) && SameColors(f, vs, color, color') && v in vs
    ensures SameColors(f, vs, color[v := c], color'[f(v) := c])
  {}

  lemma {:induction false} IndexRenamed(f: Id -> Id, vs: set<Id>, s: seq<Id>, v: Id)
    requires Injective(f, vs) && AllIn(vs, s) && v in vs
    ensures IndexOf(MapIds(f, s), f(v)) == IndexOf(s, v)
  {
    if s != [] {
      assert s[0] in s;
      assert MapIds(f, s)[1..] == MapIds(f, s[1..]);
      IndexRenamed(f, vs, s[1..], v);
    }
  }

  lemma CloseRenamed(f: Id -> Id, vs: set<Id>, path: seq<Id>, w: Id)
    requires Injective(f, vs) && AllIn(vs, path) && w in vs
    ensures MapIds(f, path)[IndexOf(MapIds(f, path), f(w))..] + [f(w)] == MapIds(f, path[IndexOf(path, w)..] + [w])
  {
    IndexRenamed(f, vs, path, w);
  }

  lemma {:induction false} VisitSame(f: Id -> Id, vs: set<Id>, edges: seq<Edge>, id: Id, path: seq<Id>,
                                     color: Coloring, color': Coloring)
    requires Renames(f, vs, edges) && SameColors(f, vs, color, color')
    requires id in color && color[id].White? && AllIn(vs, path)
    ensures SameSearch(f, vs, Visit(edges, id, path, color), Visit(MapEdges(f, edges), f(id), MapIds(f, path), color'))
    decreases Whites(color), 0
  {
    var grey := color[id := Grey];
    assert Whites(grey) == Whites(color) - {id};
    Recolor(f, vs, color, color', id, Grey);
    SuccsRenamed(f, vs, edges, id);
    SuccsInside(vs, f, edges, id);
    ScanSame(f, vs, edges, Succs(edges, id), path, grey, color'[f(id) := Grey]);
    var s := Scan(edges, Succs(edges, id), path, grey);
    var s' := Scan(MapEdges(f, edges), MapIds(f, Succs(edges, id)), MapIds(f, path), color'[f(id) := Grey]);
    Recolor(f, vs, s.color, s'.color, id, Black);
  }

  lemma {:induction false} ScanSame(f: Id -> Id, vs: set<Id>, edges: seq<Edge>, nexts: seq<Id>, path: seq<Id>,
                                    color: Coloring, color': Coloring)
    requires Renames(f, vs, edges) && SameColors(f, vs, color, color')
    requires AllIn(vs, nexts) && AllIn(vs, path)
    ensures SameSearch(f, vs, Scan(edges, nexts, path, color),
                       Scan(MapEdges(f, edges), MapIds(f, nexts), MapIds(f, path), color'))
    decreases Whites(color), |nexts| + 1
  {
    if nexts != [] {
      var w, rest := nexts[0], nexts[1..];
      assert w in nexts && AllIn(vs, rest);
      assert MapIds(f, nexts)[0] == f(w) && MapIds(f, nexts)[1..] == MapIds(f, rest);
      if w in color && color[w].Grey? {
        CloseRenamed(f, vs, path, w);
      } else if w in color && color[w].White? {
        var s := Visit(edges, w, path + [w], color);
        assert MapIds(f, path + [w]) == MapIds(f, path) + [f(w)];
        VisitSame(f, vs, edges, w, path + [w], color, color');
        if s.cycle.None? {
          assert w in Whites(color);
          var s' := Visit(MapEdges(f, edges), f(w), MapIds(f, path + [w]), color');
          ScanSame(f, vs, edges, rest, path, s.color, s'.color);
        }
      } else {
        ScanSame(f, vs, edges, rest, path, color, color');
      }
    }
  }

  lemma {:induction false} SearchSame(f: Id -> Id, vs: set<Id>, edges: seq<Edge>, nodes: seq<Node>,
                                      color: Coloring, color': Coloring)
    requires Renames(f, vs, edges) && SameColors(f, vs, color, color')
    requires forall n :: n in nodes ==> n.id in vs
    ensures SameSearch(f, vs, SearchFrom(edges, nodes, color),
                       SearchFrom(MapEdges(f, edges), MapNodes(f, nodes), color'))
  {
    if nodes != [] {
      var id, rest := nodes[0].id, nodes[1..];
      assert nodes[0] in nodes;
      assert MapNodes(f, nodes)[1..] == MapNodes(f, rest);
      if id in color && color[id].White? {
        assert MapIds(f, [id]) == [f(id)];
        VisitSame(f, vs, edges, id, [id], color, color');
        var s := Visit(edges, id, [id], color);
        if s.cycle.None? {
          SearchSame(f, vs, edges, rest, s.color, Visit(MapEdges(f, edges), f(id), [f(id)], color').color);
        }
      } else {
        SearchSame(f, vs, edges, rest, color, color');
      }
    }
  }

  lemma IdRenamed(f: Id -> Id, vs: set<Id>, nodes: seq<Node>, v: Id)
    requires Injective(f, vs) && (forall n :: n in nodes ==> n.id in vs) && v in vs
    ensures v in IdSet(nodes) <==> f(v) in IdSet(MapNodes(f, nodes))
  {
    var r := MapNodes(f, nodes);
    if v in IdSet(nodes) {
      var n :| n in nodes && n.id == v;
      var i :| 0 <= i < |nodes| && nodes[i] == n;
      assert r[i] in r;
    }
    if f(v) in IdSet(r) {
      var n :| n in r && n.id == f(v);
      var i :| 0 <= i < |r| && r[i] == n;
      assert nodes[i] in nodes;
    }
  }

  lemma AllWhiteSame(f: Id -> Id, vs: set<Id>, nodes: seq<Node>)
    requires Injective(f, vs) && forall n :: n in nodes ==> n.id in vs
    ensures SameColors(f, vs, AllWhite(nodes), AllWhite(MapNodes(f, nodes)))
  {
    forall v | v in vs
      ensures v in AllWhite(nodes) <==> f(v) in AllWhite(MapNodes(f, nodes))
    {
      IdRenamed(f, vs, nodes, v);
    }
  }

  /** The detector reports the renamed cycle, or none for both graphs. */
  lemma FindCycleRenamed(f: Id -> Id, vs: set<Id>, nodes: seq<Node>, edges: seq<Edge>)
    requires Renames(f, vs, edges) && forall n :: n in nodes ==> n.id in vs
    ensures FindCycle(MapNodes(f, nodes), MapEdges(f, edges)) == MapCycle(f, FindCycle(nodes, edges))
  {
    AllWhiteSame(f, vs, nodes);
    SearchSame(f, vs, edges, nodes, AllWhite(nodes), AllWhite(MapNodes(f, nodes)));
  }
}
