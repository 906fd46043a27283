/** Which cycle the three-colour search reports: from the first listed node that leads to a
    cycle, always take the first edge that still leads to one, until a vertex repeats. */
module FirstCycle {
  import opened Wrappers
  import opened Graph
  import opened Cycles

  /** Some walk inside `vs` starts at `v` and repeats a vertex. */
  ghost predicate Circles(edges: seq<Edge>, vs: set<Id>, v: Id) {
    exists p :: Circuit(edges, vs, v, p)
  }

  ghost predicate Circuit(edges: seq<Edge>, vs: set<Id>, v: Id, p: seq<Id>) {
    IsWalk(edges, p) && Within(p, vs) && p[0] == v && !Distinct(p)
  }

  /** The first of `ids` that leads to a cycle. */
  ghost function FirstCircling(edges: seq<Edge>, vs: set<Id>, ids: seq<Id>): (r: Option<Id>)
    ensures r.Some? ==> r.value in ids && Circles(edges, vs, r.value)
    ensures r.None? <==> forall v :: v in ids ==> !Circles(edges, vs, v)
  {
    if ids == [] then None
    else if Circles(edges, vs, ids[0]) then Some(ids[0])
    else
      assert ids == [ids[0]] + ids[1..];
      FirstCircling(edges, vs, ids[1..])
  }

  /** The loop closed by following first circling successors from the end of `path`. */
  ghost function Trail(edges: seq<Edge>, vs: set<Id>, path: seq<Id>): seq<Id>
    requires path != [] && Circles(edges, vs, path[|path| - 1])
    decreases vs - (set v | v in path)
  {
    CirclingGoesOn(edges, vs, path[|path| - 1]);
    var w := FirstCircling(edges, vs, Succs(edges, path[|path| - 1])).value;
    if w in path then path[IndexOf(path, w)..] + [w]
    else
      CirclingIsInside(edges, vs, w);
      PathGrows(vs, path, w);
      Trail(edges, vs, path + [w])
  }

  /** The reported cycle, described from the graph alone. */
  ghost function FirstLoop(nodes: seq<Node>, edges: seq<Edge>): Option<seq<Id>> {
    var start := FirstCircling(edges, IdSet(nodes), Ids(nodes));
    if start.None? then None else Some(Trail(edges, IdSet(nodes), [start.value]))
  }

  lemma PathGrows(vs: set<Id>, path: seq<Id>, w: Id)
    requires w in vs && w !in path
    ensures vs - (set v | v in path + [w]) < vs - (set v | v in path)
  {
    assert w in path + [w] && forall v :: v in path ==> v in path + [w];
    assert w in vs - (set v | v in path);
  }

  lemma CirclingIsInside(edges: seq<Edge>, vs: set<Id>, v: Id)
    requires Circles(edges, vs, v)
    ensures v in vs
  {
    var p :| Circuit(edges, vs, v, p);
  }

  lemma StepBack(edges: seq<Edge>, vs: set<Id>, u: Id, w: Id)
    requires u in vs && Edge(u, w) in edges && Circles(edges, vs, w)
    ensures Circles(edges, vs, u)
  {
    var p :| Circuit(edges, vs, w, p);
    var q := [u] + p;
    PrependWalk(edges, u, p);
    var i, j :| 0 <= i < j < |p| && p[i] == p[j];
    assert q[i + 1] == q[j + 1];
    assert Circuit(edges, vs, u, q);
  }

  lemma ClosedWalkCircles(edges: seq<Edge>, vs: set<Id>, c: seq<Id>)
    requires IsClosedWalk(edges, vs, c)
    ensures Circles(edges, vs, c[0])
  {
    assert Circuit(edges, vs, c[0], c);
  }

  /** A vertex that leads to a cycle has a successor that does. */
  lemma CirclingGoesOn(edges: seq<Edge>, vs: set<Id>, v: Id)
    requires Circles(edges, vs, v)
    ensures FirstCircling(edges, vs, Succs(edges, v)).Some?
  {
    var p :| Circuit(edges, vs, v, p);
    var i, j :| 0 <= i < j < |p| && p[i] == p[j];
    assert Hop(edges, p, 1);
    if i > 0 {
      TailWalk(edges, p, |p|);
      var q := p[1..|p|];
      assert q[i - 1] == q[j - 1];
      assert Circuit(edges, vs, p[1], q);
    } else {
      TailWalk(edges, p, j + 1);
      var q := p[1..j + 1] + [p[1]];
      ExtendWalk(edges, p[1..j + 1], p[1]);
      assert q[0] == q[|q| - 1];
      assert Circuit(edges, vs, p[1], q);
    }
  }

  lemma TailWalk(edges: seq<Edge>, p: seq<Id>, n: nat)
    requires IsWalk(edges, p) && 1 < n <= |p|
    ensures IsWalk(edges, p[1..n])
  {
    forall i | 0 < i < n - 1
      ensures Hop(edges, p[1..n], i)
    {
      assert Hop(edges, p, i + 1);
    }
  }

  // ----- the search follows the trail -----

  lemma {:induction false} StaysBlack(edges: seq<Edge>, color: Coloring, p: seq<Id>, i: nat)
    requires Settled(edges, color) && IsWalk(edges, p) && Within(p, color.Keys)
    requires p[0] in Blacks(color) && i < |p|
    ensures p[i] in Blacks(color)
  {
    if i > 0 {
      StaysBlack(edges, color, p, i - 1);
      assert Hop(edges, p, i);
    }
  }

  /** A finished vertex leads to no cycle, so the search never turns back onto the trail. */
  lemma BlackNeverCircles(edges: seq<Edge>, color: Coloring, v: Id)
    requires Settled(edges, color) && v in Blacks(color)
    ensures !Circles(edges, color.Keys, v)
  {
    if p :| Circuit(edges, color.Keys, v, p) {
      var i, j :| 0 <= i < j < |p| && p[i] == p[j];
      var c := p[i..j + 1];
      forall k | 0 < k < |c|
        ensures Hop(edges, c, k)
      {
        assert Hop(edges, p, i + k);
      }
      forall k | 0 <= k < |c|
        ensures c[k] in Blacks(color)
      {
        StaysBlack(edges, color, p, i + k);
      }
      assert IsClosedWalk(edges, Blacks(color), c);
    }
  }

  lemma VisitFollowsTrail(edges: seq<Edge>, id: Id, path: seq<Id>, color: Coloring)
    requires id in color && color[id].White?
    requires Ready(edges, path, color[id := Grey]) && path[|path| - 1] == id
    ensures var s := Visit(edges, id, path, color);
            && (s.cycle.Some? <==> Circles(edges, color.Keys, id))
            && (s.cycle.Some? ==> s.cycle.value == Trail(edges, color.Keys, path))
    decreases Whites(color), 0
  {
    var grey := color[id := Grey];
    assert Whites(grey) == Whites(color) - {id};
    assert grey.Keys == color.Keys;
    VisitCorrect(edges, id, path, color);
    ScanFollowsTrail(edges, Succs(edges, id), path, grey);
    var s := Visit(edges, id, path, color);
    if s.cycle.Some? {
      StepBack(edges, color.Keys, id, FirstCircling(edges, color.Keys, Succs(edges, id)).value);
    } else {
      BlackNeverCircles(edges, s.color, id);
    }
  }

  /** What the scan of the successors finds, given the first of them that circles. */
  ghost predicate ScanFinds(edges: seq<Edge>, vs: set<Id>, nexts: seq<Id>, path: seq<Id>, found: Option<seq<Id>>) {
    var next := FirstCircling(edges, vs, nexts);
    && (found.Some? <==> next.Some?)
    && (found.Some? ==>
          if next.value in path then found.value == path[IndexOf(path, next.value)..] + [next.value]
          else found.value == Trail(edges, vs, path + [next.value]))
  }

  lemma ScanFollowsTrail(edges: seq<Edge>, nexts: seq<Id>, path: seq<Id>, color: Coloring)
    requires Ready(edges, path, color)
    requires forall w :: w in nexts ==> Edge(path[|path| - 1], w) in edges
    ensures ScanFinds(edges, color.Keys, nexts, path, Scan(edges, nexts, path, color).cycle)
    decreases Whites(color), |nexts| + 1
  {
    if nexts != [] {
      var w := nexts[0];
      assert w in nexts && forall u :: u in nexts[1..] ==> u in nexts;
      if w in color && color[w].Grey? {
        CloseCycle(edges, path, color, w);
        ClosedWalkCircles(edges, color.Keys, path[IndexOf(path, w)..] + [w]);
        assert w in path by { assert w in Greys(color); }
      } else if w in color && color[w].White? {
        EnterWhite(edges, path, color, w);
        VisitCorrect(edges, w, path + [w], color);
        VisitFollowsTrail(edges, w, path + [w], color);
        assert w !in path by { assert w !in Greys(color); }
        var s := Visit(edges, w, path + [w], color);
        if s.cycle.None? {
          assert w in Whites(color);
          ScanFollowsTrail(edges, nexts[1..], path, s.color);
        }
      } else {
        NotEntered(edges, color, w);
        ScanFollowsTrail(edges, nexts[1..], path, color);
      }
    }
  }

  lemma NotEntered(edges: seq<Edge>, color: Coloring, w: Id)
    requires Settled(edges, color) && (w in color ==> color[w].Black?)
    ensures !Circles(edges, color.Keys, w)
  {
    if w in color {
      assert w in Blacks(color);
      BlackNeverCircles(edges, color, w);
    }
    if Circles(edges, color.Keys, w) {
      CirclingIsInside(edges, color.Keys, w);
    }
  }

  lemma SearchFromFollowsTrail(edges: seq<Edge>, nodes: seq<Node>, color: Coloring)
    requires Settled(edges, color) && Greys(color) == {}
    ensures var start := FirstCircling(edges, color.Keys, Ids(nodes));
            var found := SearchFrom(edges, nodes, color).cycle;
            && (found.Some? <==> start.Some?)
            && (found.Some? ==> found.value == Trail(edges, color.Keys, [start.value]))
  {
    if nodes != [] {
      var id := nodes[0].id;
      assert Ids(nodes) == [id] + Ids(nodes[1..]);
      if id in color && color[id].White? {
        assert Blacks(color[id := Grey]) == Blacks(color);
        assert Greys(color[id := Grey]) == {id};
        VisitCorrect(edges, id, [id], color);
        VisitFollowsTrail(edges, id, [id], color);
        var s := Visit(edges, id, [id], color);
        if s.cycle.None? {
          SearchFromFollowsTrail(edges, nodes[1..], s.color);
        }
      } else {
        assert id in color ==> id in Blacks(color) || id in Greys(color);
        NotEntered(edges, color, id);
        SearchFromFollowsTrail(edges, nodes[1..], color);
      }
    }
  }

  /** The detector reports exactly the first loop of the graph. */
  lemma FindCycleIsFirstLoop(nodes: seq<Node>, edges: seq<Edge>)
    ensures FindCycle(nodes, edges) == FirstLoop(nodes, edges)
  {
    var white := AllWhite(nodes);
    assert white.Keys == IdSet(nodes);
    assert Blacks(white) == {} && Greys(white) == {};
    NoVerticesNoCycle(edges, Blacks(white));
    SearchFromFollowsTrail(edges, nodes, white);
  }
}
