/** What each edit leaves on the canvas, and how undo and redo treat it. */
module EditEffects {
  import opened Wrappers
  import opened Graph
  import opened Traversal
  import opened WalkOrder
  import opened History
  import opened AiCompile
  import opened MergeSwaps
  import opened Detection
  import opened PathGraphs
  import opened ListOrder
  import opened Report
  import opened Editor

  ghost predicate Sized(c: Canvas, ed: Edit) {
    (ed.DuplicateChosen? ==> |ed.ids| == |Chosen(c)|) && (ed.PasteClipboard? ==> |ed.ids| == |c.clipboard|)
  }

  /** Apart from the history, an applied edit is the edit performed. */
  lemma AppliedIsPerformed(c: Canvas, ed: Edit)
    requires Sized(c, ed)
    ensures Apply(c, ed) == Perform(c, ed).(history := Apply(c, ed).history)
    ensures Apply(c, ed).history
         == Push(Perform(c, ed).history, Snapshot(Perform(c, ed).nodes, Perform(c, ed).edges))
  {}

  // ----- connecting -----

  /** Clicking the out port of `a` and then the in port of `b` draws the edge from `a` to `b`,
      once, after the edges already there, and changes nothing else on the canvas. */
  lemma ConnectDrawsForward(c: Canvas, a: Id, b: Id)
    requires Valid(c) && a != b
    ensures var d := Apply(Apply(c, Port(a, true)), Port(b, false));
            && d.edges == (if Edge(a, b) in c.edges then c.edges else c.edges + [Edge(a, b)])
            && d == c.(edges := d.edges, pending := None, history := Push(c.history, Snapshot(c.nodes, d.edges)))
  {}

  /** An in port without a pending connection from another node changes nothing. */
  lemma InPortAloneDoesNothing(c: Canvas, b: Id)
    requires Valid(c) && (c.pending.None? || c.pending == Some(b))
    ensures Apply(c, Port(b, false)) == c
  {}

  /** Once a pending connection is cancelled, no in port completes it. */
  lemma CancelEndsConnecting(c: Canvas, b: Id)
    requires Valid(c)
    ensures var d := Apply(c, CancelPending);
            d == c.(pending := None) && Apply(d, Port(b, false)) == d
  {}

  /** Rearranging shows the nodes as given and keeps every edge; selecting keeps the graph and
      decides what delete takes. */
  lemma ShownAsGiven(c: Canvas, laid: seq<Node>, selected: Option<Id>, multi: seq<Id>, selectedEdge: Option<nat>)
    requires Valid(c)
    ensures Apply(c, Rearrange(laid)).nodes == laid && Apply(c, Rearrange(laid)).edges == c.edges
    ensures Apply(c, Select(selected, multi, selectedEdge))
         == c.(selected := selected, multi := multi, selectedEdge := selectedEdge)
  {}

  /** Accepting a suggested step leads the node it was suggested for to the new one, so that
      the former no longer goes nowhere and the latter does, unless it is a settle. */
  lemma AcceptLeadsOn(c: Canvas, source: Node, n: Node)
    requires Valid(c) && source in c.nodes && n.id !in IdSet(c.nodes)
    ensures var d := Apply(c, Accept(source.id, n));
            && d.nodes == c.nodes + [n] && Succs(d.edges, source.id) == Succs(c.edges, source.id) + [n.id]
            && !GoesNowhere(d.edges, source) && (GoesNowhere(d.edges, n) <==> n.kind != Settle)
            && (forall v :: v != source.id ==> Succs(d.edges, v) == Succs(c.edges, v))
  {
    var e := Edge(source.id, n.id);
    forall v
      ensures Succs(c.edges + [e], v) == if v == source.id then Succs(c.edges, v) + [n.id] else Succs(c.edges, v)
    {
      SuccsAppend(c.edges, e, v);
    }
    assert (c.edges + [e])[|c.edges|] == e;
  }

  // ----- adding and deleting -----

  lemma RemovedAgain(nodes: seq<Node>, edges: seq<Edge>, n: Node)
    requires n.id !in IdSet(nodes) && Closed(nodes, edges)
    ensures KeepNodes(nodes + [n], {n.id}) == nodes && KeepEdges(edges, {n.id}) == edges
  {
    KeepNodesAll(nodes, {n.id});
    KeepLast(nodes, n, {n.id});
    KeepEdgesAll(edges, {n.id});
    assert nodes + [] == nodes;
  }

  lemma DeletePerformed(c: Canvas, id: Id)
    requires c.multi == [] && c.selectedEdge.None? && c.selected == Some(id)
    ensures Perform(c, Delete).nodes == KeepNodes(c.nodes, {id})
    ensures Perform(c, Delete).edges == KeepEdges(c.edges, {id})
  {}

  lemma DeleteShown(c: Canvas, id: Id)
    requires c.multi == [] && c.selectedEdge.None? && c.selected == Some(id)
    ensures Apply(c, Delete).nodes == KeepNodes(c.nodes, {id})
    ensures Apply(c, Delete).edges == KeepEdges(c.edges, {id})
  {
    AppliedIsPerformed(c, Delete);
    DeletePerformed(c, id);
  }

  lemma AddShown(c: Canvas, n: Node)
    ensures var d := Apply(c, Add(n));
            && d.nodes == c.nodes + [n] && d.edges == c.edges && d.selected == Some(n.id)
            && d.multi == c.multi && d.selectedEdge == c.selectedEdge
  {
    AppliedIsPerformed(c, Add(n));
  }

  /** An added node is appended and selected; deleting it at once restores the graph. */
  lemma AddThenDelete(c: Canvas, n: Node)
    requires Closed(c.nodes, c.edges) && n.id !in IdSet(c.nodes) && c.multi == [] && c.selectedEdge.None?
    ensures var d := Apply(c, Add(n));
            && d.nodes == c.nodes + [n] && d.edges == c.edges && d.selected == Some(n.id)
            && Apply(d, Delete).nodes == c.nodes && Apply(d, Delete).edges == c.edges
  {
    AddShown(c, n);
    DeleteShown(Apply(c, Add(n)), n.id);
    RemovedAgain(c.nodes, c.edges, n);
  }

  lemma {:induction false} KeepNodesAll(nodes: seq<Node>, ids: set<Id>)
    requires IdSet(nodes) !! ids
    ensures KeepNodes(nodes, ids) == nodes
  {
    if nodes != [] {
      var front, n := SplitLast(nodes);
      assert n in nodes && n.id in IdSet(nodes);
      assert forall m :: m in front ==> m in nodes;
      assert nodes[..|nodes| - 1] == front;
      KeepNodesAll(front, ids);
    }
  }

  lemma {:induction false} KeepEdgesAll(edges: seq<Edge>, ids: set<Id>)
    requires forall e :: e in edges ==> e.src !in ids && e.dst !in ids
    ensures KeepEdges(edges, ids) == edges
  {
    if edges != [] {
      var front, e := edges[..|edges| - 1], edges[|edges| - 1];
      assert edges == front + [e] && e in edges;
      KeepEdgesAll(front, ids);
    }
  }

  /** Deleting ids removes exactly the nodes with these ids and the edges that touch them, and
      keeps the rest in order. */
  ghost predicate Without(c: Canvas, d: Canvas, ids: set<Id>) {
    && d.nodes == Filter(c.nodes, (n: Node) => n.id !in ids)
    && d.edges == Filter(c.edges, (e: Edge) => e.src !in ids && e.dst !in ids)
  }

  lemma FilterDrops(front: seq<Edge>, e: Edge, gone: Edge)
    ensures Filter(front + [e], (x: Edge) => x != gone)
         == Filter(front, (x: Edge) => x != gone) + if e != gone then [e] else []
  {
    assert (front + [e])[..|front + [e]| - 1] == front;
  }

  lemma {:induction false} WithoutIndexSelects(edges: seq<Edge>, i: nat, gone: Edge)
    requires Distinct(edges) && i < |edges| && gone == edges[i]
    ensures WithoutIndex(edges, i) == Filter(edges, (e: Edge) => e != gone)
  {
    var n := |edges| - 1;
    var front, last := edges[..n], edges[n];
    assert edges == front + [last];
    FilterDrops(front, last, gone);
    if i < n {
      WithoutIndexSelects(front, i, gone);
      assert WithoutIndex(edges, i) == WithoutIndex(front, i) + [last];
    } else {
      FilterAll(front, (e: Edge) => e != gone);
    }
  }

  lemma {:induction false} FilterAll<T(!new)>(s: seq<T>, keep: T -> bool)
    requires forall x :: x in s ==> keep(x)
    ensures Filter(s, keep) == s
  {
    if s != [] {
      var n := |s| - 1;
      assert s == s[..n] + [s[n]];
      FilterAll(s[..n], keep);
    }
  }

  /** Delete takes the selected edge if there is one, else the multi-selection, else the
      selected node; the pending source and the clipboard stay. */
  lemma DeleteRemovesChosen(c: Canvas)
    requires Valid(c)
    ensures var d := Apply(c, Delete);
            && d.pending == c.pending && d.clipboard == c.clipboard
            && (if c.selectedEdge.Some? then
                  && d.nodes == c.nodes && d.selectedEdge.None? && d.multi == c.multi && d.selected == c.selected
                  && var i := c.selectedEdge.value;
                     if i < |c.edges| then var gone := c.edges[i]; d.edges == Filter(c.edges, (e: Edge) => e != gone)
                     else d.edges == c.edges
                else if c.multi != [] then
                  Without(c, d, set v | v in c.multi) && d.multi == [] && d.selected.None?
                else if c.selected.Some? then
                  Without(c, d, {c.selected.value}) && d.selected.None?
                else d == c)
  {
    if c.selectedEdge.Some? {
      if c.selectedEdge.value < |c.edges| {
        WithoutIndexSelects(c.edges, c.selectedEdge.value, c.edges[c.selectedEdge.value]);
      }
    } else if c.multi != [] {
      KeepNodesSelects(c.nodes, set v | v in c.multi);
      KeepEdgesSelects(c.edges, set v | v in c.multi);
    } else if c.selected.Some? {
      KeepNodesSelects(c.nodes, {c.selected.value});
      KeepEdgesSelects(c.edges, {c.selected.value});
    }
  }

  // ----- copies -----

  lemma {:induction false} FindAllIff(nodes: seq<Node>, ids: seq<Id>)
    ensures FindAll(nodes, ids).Some? <==> forall v :: v in ids ==> v in IdSet(nodes)
    ensures FindAll(nodes, ids).Some? ==>
              forall i :: 0 <= i < |ids| ==> FindNode(nodes, ids[i]) == Some(FindAll(nodes, ids).value[i])
  {
    if ids != [] {
      assert ids == [ids[0]] + ids[1..];
      FindAllIff(nodes, ids[1..]);
    }
  }

  /** `after` has, behind the nodes `before`, a copy of each original under its new id, shifted
      both ways. */
  ghost predicate AddsCopies(before: seq<Node>, after: seq<Node>, originals: seq<Node>, ids: seq<Id>, shift: real) {
    && |ids| == |originals| && |after| == |before| + |ids| && before <= after
    && forall i :: 0 <= i < |ids| ==>
         after[|before| + i]
         == originals[i].(id := ids[i], x := originals[i].x + shift, y := originals[i].y + shift)
  }

  lemma CopiesAdded(before: seq<Node>, originals: seq<Node>, ids: seq<Id>, shift: real)
    requires |ids| == |originals|
    ensures AddsCopies(before, before + Copies(originals, ids, shift), originals, ids, shift)
  {}

  /** The nodes with the given ids, which must all be there. */
  ghost function Named(nodes: seq<Node>, ids: seq<Id>): (r: seq<Node>)
    requires forall v :: v in ids ==> v in IdSet(nodes)
    ensures |r| == |ids| && forall i :: 0 <= i < |ids| ==> FindNode(nodes, ids[i]) == Some(r[i])
  {
    seq(|ids|, i requires 0 <= i < |ids| => FindNode(nodes, ids[i]).value)
  }

  lemma FindAllNamed(nodes: seq<Node>, ids: seq<Id>)
    requires forall v :: v in ids ==> v in IdSet(nodes)
    ensures FindAll(nodes, ids) == Some(Named(nodes, ids))
  {
    FindAllIff(nodes, ids);
    assert FindAll(nodes, ids).value == Named(nodes, ids);
  }

  ghost predicate ChosenThere(c: Canvas) {
    Chosen(c) != [] && forall v :: v in Chosen(c) ==> v in IdSet(c.nodes)
  }

  lemma DuplicateFound(c: Canvas, ids: seq<Id>, found: seq<Node>)
    requires |ids| == |Chosen(c)| && Chosen(c) != [] && FindAll(c.nodes, Chosen(c)) == Some(found)
    ensures Duplicate(c, ids) == c.(nodes := c.nodes + Copies(found, ids, 24.0), multi := ids)
  {}

  lemma DuplicateMissing(c: Canvas, ids: seq<Id>)
    requires |ids| == |Chosen(c)| && !ChosenThere(c)
    ensures Duplicate(c, ids) == c
  {
    FindAllIff(c.nodes, Chosen(c));
  }

  lemma DuplicatePerformed(c: Canvas, ids: seq<Id>)
    requires |ids| == |Chosen(c)|
    ensures Perform(c, DuplicateChosen(ids)) == Duplicate(c, ids)
  {}

  /** Duplicating copies the chosen nodes without their edges, if all are still there. */
  lemma DuplicateCopiesChosen(c: Canvas, ids: seq<Id>)
    requires Valid(c) && |ids| == |Chosen(c)|
    ensures var d := Apply(c, DuplicateChosen(ids));
            if ChosenThere(c) then
              && d.edges == c.edges && d.multi == ids
              && AddsCopies(c.nodes, d.nodes, Named(c.nodes, Chosen(c)), ids, 24.0)
            else d == c
  {
    AppliedIsPerformed(c, DuplicateChosen(ids));
    DuplicatePerformed(c, ids);
    if ChosenThere(c) {
      var found := Named(c.nodes, Chosen(c));
      FindAllNamed(c.nodes, Chosen(c));
      DuplicateFound(c, ids, found);
      CopiesAdded(c.nodes, found, ids, 24.0);
    } else {
      DuplicateMissing(c, ids);
      RecordsNothing(c);
    }
  }

  lemma RecordsNothing(c: Canvas)
    requires Valid(c)
    ensures c.(history := Push(c.history, Snapshot(c.nodes, c.edges))) == c
  {}

  lemma FirstIndex(s: seq<Id>, i: nat)
    requires Distinct(s) && i < |s|
    ensures IndexOf(s, s[i]) == i
  {
    assert s[i] in s;
  }

  lemma EdgeIsPasted(edges: seq<Edge>, from: seq<Id>, ids: seq<Id>, e: Edge)
    requires |ids| == |from| && e in edges && e.src in from && e.dst in from
    ensures Edge(ids[IndexOf(from, e.src)], ids[IndexOf(from, e.dst)]) in PastedEdges(edges, from, ids)
  {
    PastedFrom(edges, from, ids);
  }

  lemma PastedOriginal(edges: seq<Edge>, from: seq<Id>, ids: seq<Id>, p: Edge) returns (e: Edge)
    requires |ids| == |from| && p in PastedEdges(edges, from, ids)
    ensures e in edges && e.src in from && e.dst in from
    ensures p == Edge(ids[IndexOf(from, e.src)], ids[IndexOf(from, e.dst)])
  {
    PastedFrom(edges, from, ids);
    e :| e in edges && e.src in from && e.dst in from
         && p == Edge(ids[IndexOf(from, e.src)], ids[IndexOf(from, e.dst)]);
  }

  lemma SamePosition(from: seq<Id>, ids: seq<Id>, i: nat, v: Id)
    requires |ids| == |from| && Distinct(ids) && i < |ids| && v in from && ids[IndexOf(from, v)] == ids[i]
    ensures v == from[i]
  {
    assert from[IndexOf(from, v)] == v;
  }

  lemma PastedPairIff(edges: seq<Edge>, from: seq<Id>, ids: seq<Id>, i: nat, j: nat)
    requires |ids| == |from| && Distinct(ids) && Distinct(from) && i < |ids| && j < |ids|
    ensures Edge(ids[i], ids[j]) in PastedEdges(edges, from, ids) <==> Edge(from[i], from[j]) in edges
  {
    if Edge(from[i], from[j]) in edges {
      assert from[i] in from && from[j] in from;
      EdgeIsPasted(edges, from, ids, Edge(from[i], from[j]));
      FirstIndex(from, i);
      FirstIndex(from, j);
    }
    if Edge(ids[i], ids[j]) in PastedEdges(edges, from, ids) {
      var e := PastedOriginal(edges, from, ids, Edge(ids[i], ids[j]));
      SamePosition(from, ids, i, e.src);
      SamePosition(from, ids, j, e.dst);
      assert e == Edge(from[i], from[j]);
    }
  }

  lemma PastedAmongCopies(edges: seq<Edge>, from: seq<Id>, ids: seq<Id>)
    requires |ids| == |from|
    ensures forall e :: e in PastedEdges(edges, from, ids) ==> e.src in ids && e.dst in ids
  {
    PastedFrom(edges, from, ids);
  }

  /** The edges `after` are those `before`, in order, and edges among `ids` that mirror, position
      by position, the edges `before` among `from`. */
  ghost predicate Mirrors(before: seq<Edge>, after: seq<Edge>, from: seq<Id>, ids: seq<Id>) {
    && |from| == |ids| && before <= after
    && (forall e :: e in after ==> e in before || (e.src in ids && e.dst in ids))
    && (forall i, j :: 0 <= i < |ids| && 0 <= j < |ids| ==>
          (Edge(ids[i], ids[j]) in after <==> Edge(from[i], from[j]) in before))
  }

  lemma PastedMirrors(edges: seq<Edge>, from: seq<Id>, ids: seq<Id>)
    requires |ids| == |from| && Distinct(ids) && Distinct(from)
    requires forall e :: e in edges ==> e.src !in ids
    ensures Mirrors(edges, edges + PastedEdges(edges, from, ids), from, ids)
  {
    var pasted := PastedEdges(edges, from, ids);
    PastedAmongCopies(edges, from, ids);
    forall i, j | 0 <= i < |ids| && 0 <= j < |ids|
      ensures Edge(ids[i], ids[j]) in edges + pasted <==> Edge(from[i], from[j]) in edges
    {
      PastedPairIff(edges, from, ids, i, j);
      assert ids[i] in ids && Edge(ids[i], ids[j]).src == ids[i];
    }
  }

  lemma PastePerformed(c: Canvas, ids: seq<Id>)
    requires |ids| == |c.clipboard|
    ensures Perform(c, PasteClipboard(ids)) == Paste(c, ids)
  {}

  lemma PasteShown(c: Canvas, ids: seq<Id>)
    requires c.clipboard != [] && |ids| == |c.clipboard|
    ensures var d := Apply(c, PasteClipboard(ids));
            && d.nodes == c.nodes + Copies(c.clipboard, ids, 32.0)
            && d.edges == c.edges + PastedEdges(c.edges, Ids(c.clipboard), ids) && d.multi == ids
  {
    AppliedIsPerformed(c, PasteClipboard(ids));
    PastePerformed(c, ids);
  }

  /** Pasting mirrors: two copies are joined exactly as their originals are now, and the only
      new edges run between copies. */
  lemma PasteMirrors(c: Canvas, ids: seq<Id>)
    requires Valid(c) && c.clipboard != [] && |ids| == |c.clipboard| && Fresh(c, ids)
    ensures var d := Apply(c, PasteClipboard(ids));
            && AddsCopies(c.nodes, d.nodes, c.clipboard, ids, 32.0) && d.multi == ids
            && Mirrors(c.edges, d.edges, Ids(c.clipboard), ids)
  {
    PasteShown(c, ids);
    CopiesAdded(c.nodes, c.clipboard, ids, 32.0);
    PastedMirrors(c.edges, Ids(c.clipboard), ids);
  }

  /** Copying puts the chosen nodes on the clipboard, if all are there, and changes nothing else. */
  lemma CopyTakesChosen(c: Canvas)
    requires Valid(c)
    ensures var d := Apply(c, CopyChosen);
            && d == c.(clipboard := d.clipboard)
            && (if ChosenThere(c) then
                  && |d.clipboard| == |Chosen(c)|
                  && forall i :: 0 <= i < |Chosen(c)| ==> FindNode(c.nodes, Chosen(c)[i]) == Some(d.clipboard[i])
                else d.clipboard == c.clipboard)
  {
    FindAllIff(c.nodes, Chosen(c));
  }

  /** Switching drafts shows the other graph and keeps pending source, multi-selection and
      clipboard; what is selected then is a node of the draft, if it has any. */
  lemma SwitchShowsDraft(c: Canvas, nodes: seq<Node>, edges: seq<Edge>)
    ensures var d := Apply(c, SwitchDraft(nodes, edges));
            && d.nodes == nodes && d.edges == edges
            && d.pending == c.pending && d.multi == c.multi && d.clipboard == c.clipboard
            && (d.selected.None? <==> nodes == []) && (d.selected.Some? ==> d.selected.value in IdSet(nodes))
  {
    if nodes != [] {
      assert nodes[0] in nodes;
    }
  }

  // ----- the planner's graph -----

  /** Accepting the planner's graph shows its nodes as a path that walks in their order. */
  lemma AiReplaceWalksInOrder(c: Canvas, prefix: string, steps: seq<AiCompile.Step>, laid: seq<Node>)
    requires laid != [] && Allowed(c, AiReplace(prefix, steps, laid))
    ensures var d := Apply(c, AiReplace(prefix, steps, laid));
            d.nodes == laid && IsPath(d.nodes, d.edges) && Order(d.nodes, d.edges) == Ids(laid)
  {
    var edges := Chain(Ids(laid));
    CanvasIdsDistinct(prefix, steps);
    SameIds(laid, CanvasNodes(prefix, steps));
    PathIsClosed(laid, edges);
    PathHasNoCycle(laid, edges);
    PathReached(laid, edges);
    AcyclicOrderNeedsNoFallback(laid, edges);
  }

  // ----- undo and redo around an edit -----

  ghost predicate Changes(c: Canvas, ed: Edit)
    requires Sized(c, ed)
  {
    Perform(c, ed).nodes != c.nodes || Perform(c, ed).edges != c.edges
  }

  lemma OnlyStepsMoveHistory(c: Canvas, ed: Edit)
    requires Sized(c, ed) && !ed.UndoEdit? && !ed.RedoEdit?
    ensures Perform(c, ed).history == c.history
  {}

  lemma ChangeIsPushed(c: Canvas, ed: Edit)
    requires Valid(c) && Sized(c, ed) && !ed.UndoEdit? && !ed.RedoEdit?
    ensures var d := Apply(c, ed);
            && d.history == Push(c.history, Snapshot(d.nodes, d.edges))
            && (Changes(c, ed) <==> c.history.last != Some(Snapshot(d.nodes, d.edges)))
  {
    AppliedIsPerformed(c, ed);
    OnlyStepsMoveHistory(c, ed);
  }

  lemma NothingToRedo(d: Canvas)
    requires d.history.future == [] && d.history.last == Some(Snapshot(d.nodes, d.edges))
    ensures Apply(d, RedoEdit) == d
  {}

  /** After an edit that changes the graph there is nothing to redo: redo leaves the canvas. */
  lemma ChangeEndsRedo(c: Canvas, ed: Edit)
    requires Valid(c) && Sized(c, ed) && !ed.UndoEdit? && !ed.RedoEdit? && Changes(c, ed)
    ensures Apply(c, ed).history.future == []
    ensures Apply(Apply(c, ed), RedoEdit) == Apply(c, ed)
  {
    var d := Apply(c, ed);
    ChangeIsPushed(c, ed);
    PushedOnTop(c.history, Snapshot(d.nodes, d.edges));
    NothingToRedo(d);
  }

  /** An edit that changes neither nodes nor edges keeps both stacks. */
  lemma OtherEditsKeepStacks(c: Canvas, ed: Edit)
    requires Valid(c) && Sized(c, ed) && !ed.UndoEdit? && !ed.RedoEdit? && !Changes(c, ed)
    ensures Apply(c, ed).history == c.history
  {
    ChangeIsPushed(c, ed);
  }

  lemma UndoShowsBelow(d: Canvas)
    requires |d.history.past| >= 2
    ensures var u, n := Apply(d, UndoEdit), |d.history.past|;
            && Snapshot(u.nodes, u.edges) == d.history.past[n - 2]
            && u.history == Undo(d.history)
  {}

  lemma RedoShowsTop(u: Canvas)
    requires u.history.future != []
    ensures var r := Apply(u, RedoEdit);
            Snapshot(r.nodes, r.edges) == u.history.future[|u.history.future| - 1]
  {}

  /** Undo takes back the last change, whatever it was, and redo brings it again. */
  lemma UndoTakesBack(c: Canvas, ed: Edit)
    requires Valid(c) && Sized(c, ed) && !ed.UndoEdit? && !ed.RedoEdit? && Changes(c, ed)
    ensures var d := Apply(c, ed);
            var u := Apply(d, UndoEdit);
            && u.nodes == c.nodes && u.edges == c.edges
            && Apply(u, RedoEdit).nodes == d.nodes && Apply(u, RedoEdit).edges == d.edges
  {
    var d := Apply(c, ed);
    ChangeIsOnTop(c, ed);
    UndoShowsBelow(d);
    RedoShowsTop(Apply(d, UndoEdit));
  }

  lemma ChangeIsOnTop(c: Canvas, ed: Edit)
    requires Valid(c) && Sized(c, ed) && !ed.UndoEdit? && !ed.RedoEdit? && Changes(c, ed)
    ensures var d := Apply(c, ed);
            var p := d.history.past;
            && |p| >= 2 && Some(p[|p| - 1]) == Some(Snapshot(d.nodes, d.edges))
            && Some(p[|p| - 2]) == c.history.last == Some(Snapshot(c.nodes, c.edges))
  {
    var d := Apply(c, ed);
    ChangeIsPushed(c, ed);
    ValidShowsLast(c);
    PushedOnTop(c.history, Snapshot(d.nodes, d.edges));
  }

  lemma ValidShowsLast(c: Canvas)
    requires Valid(c)
    ensures Consistent(c.history) && c.history.last == Some(Snapshot(c.nodes, c.edges))
  {}

  /** A new snapshot stands on top of the one shown before. */
  lemma PushedOnTop(h: Stacks, s: Snapshot)
    requires Consistent(h) && h.last != Some(s)
    ensures var p := Push(h, s).past;
            && |p| >= 2 && p[|p| - 1] == s && Some(p[|p| - 2]) == h.last
            && Push(h, s).future == [] && Push(h, s).last == Some(s)
  {}
}
