/** The canvas editor: every edit, the history behind it, and what all of them keep. */
module Editor {
  import opened Wrappers
  import opened Graph
  import opened History
  import opened AiCompile
  import opened MergeSwaps
  import opened PathGraphs

  /** `multi` is the multi-selection in insertion order; an empty `clipboard` is no clipboard. */
  datatype Canvas = Canvas(
    nodes: seq<Node>, edges: seq<Edge>,
    selected: Option<Id>, multi: seq<Id>, selectedEdge: Option<nat>,
    pending: Option<Id>, clipboard: seq<Node>,
    history: Stacks)

  // ----- graphs the editor may hold -----

  ghost predicate NoSelfLoops(edges: seq<Edge>) {
    forall e :: e in edges ==> e.src != e.dst
  }

  /** Distinct ids, closed edges, no self-loops, no parallel edges. */
  ghost predicate WellFormed(nodes: seq<Node>, edges: seq<Edge>) {
    DistinctIds(nodes) && Closed(nodes, edges) && NoSelfLoops(edges) && Distinct(edges)
  }

  // ----- edits -----

  function AddNode(c: Canvas, n: Node): Canvas {
    c.(nodes := c.nodes + [n], selected := Some(n.id))
  }

  /** The out port starts a connection; the in port of another node completes it. */
  function ClickPort(c: Canvas, node: Id, out: bool): Canvas {
    if out then c.(pending := Some(node))
    else if c.pending.Some? && c.pending.value != node then
      var e := Edge(c.pending.value, node);
      c.(edges := if e in c.edges then c.edges else c.edges + [e], pending := None)
    else c
  }

  function WithoutIndex<T>(s: seq<T>, i: nat): seq<T> {
    if i < |s| then s[..i] + s[i + 1..] else s
  }

  function RemoveIds(c: Canvas, ids: set<Id>): Canvas {
    c.(nodes := KeepNodes(c.nodes, ids), edges := KeepEdges(c.edges, ids), selected := None)
  }

  /** A selected edge goes first, then the multi-selection, then the selected node. */
  function DeleteSelected(c: Canvas): Canvas {
    if c.selectedEdge.Some? then
      c.(edges := WithoutIndex(c.edges, c.selectedEdge.value), selectedEdge := None)
    else if c.multi != [] then RemoveIds(c, set v | v in c.multi).(multi := [])
    else if c.selected.Some? then RemoveIds(c, {c.selected.value})
    else c
  }

  function Chosen(c: Canvas): seq<Id> {
    if c.multi != [] then c.multi else if c.selected.Some? then [c.selected.value] else []
  }

  /** Looks every id up; `None` when one is gone, where the source throws. */
  function FindAll(nodes: seq<Node>, ids: seq<Id>): (r: Option<seq<Node>>)
    ensures r.Some? ==> |r.value| == |ids|
    ensures r.Some? ==> forall i :: 0 <= i < |ids| ==> r.value[i].id == ids[i] && r.value[i] in nodes
  {
    if ids == [] then Some([])
    else
      var n, rest := FindNode(nodes, ids[0]), FindAll(nodes, ids[1..]);
      if n.Some? && rest.Some? then Some([n.value] + rest.value) else None
  }

  /** Copies under new ids, shifted by `d`. */
  function Copies(originals: seq<Node>, ids: seq<Id>, d: real): (r: seq<Node>)
    requires |ids| == |originals|
    ensures |r| == |ids| && forall i :: 0 <= i < |r| ==> r[i].id == ids[i]
    ensures forall i :: 0 <= i < |r| ==> r[i].kind == originals[i].kind && r[i].config == originals[i].config
  {
    seq(|ids|, i requires 0 <= i < |ids| =>
      originals[i].(id := ids[i], x := originals[i].x + d, y := originals[i].y + d))
  }

  /** Duplicating copies nodes only; it does nothing when a chosen node is gone. */
  function Duplicate(c: Canvas, newIds: seq<Id>): Canvas
    requires |newIds| == |Chosen(c)|
  {
    var found := FindAll(c.nodes, Chosen(c));
    if Chosen(c) == [] || found.None? then c
    else c.(nodes := c.nodes + Copies(found.value, newIds, 24.0), multi := newIds)
  }

  function Copy(c: Canvas): Canvas {
    var found := FindAll(c.nodes, Chosen(c));
    if Chosen(c) == [] || found.None? then c else c.(clipboard := found.value)
  }

  /** The edges among `from`, renamed position by position to `ids`. */
  function PastedEdges(edges: seq<Edge>, from: seq<Id>, ids: seq<Id>): seq<Edge>
    requires |from| == |ids|
  {
    if edges == [] then []
    else
      var e := edges[|edges| - 1];
      PastedEdges(edges[..|edges| - 1], from, ids)
      + if e.src in from && e.dst in from then [Edge(ids[IndexOf(from, e.src)], ids[IndexOf(from, e.dst)])] else []
  }

  function Paste(c: Canvas, newIds: seq<Id>): Canvas
    requires |newIds| == |c.clipboard|
  {
    if c.clipboard == [] then c
    else c.(nodes := c.nodes + Copies(c.clipboard, newIds, 32.0),
            edges := c.edges + PastedEdges(c.edges, Ids(c.clipboard), newIds),
            multi := newIds)
  }

  function Show(c: Canvas, h: Stacks): Canvas {
    if h.last.None? then c.(history := h)
    else c.(nodes := h.last.value.nodes, edges := h.last.value.edges, history := h)
  }

  /** Accepting a suggested step adds the node and an edge to it in one edit. */
  function AcceptStep(c: Canvas, source: Id, n: Node): Canvas {
    c.(nodes := c.nodes + [n], edges := c.edges + [Edge(source, n.id)], selected := Some(n.id))
  }

  /** Another draft is shown in the same workspace: history, pending source, multi-selection and
      clipboard stay, and a selection that is not there falls back to the first node. */
  function SwitchTo(c: Canvas, nodes: seq<Node>, edges: seq<Edge>): Canvas {
    var keep := c.selected.Some? && c.selected.value in IdSet(nodes);
    c.(nodes := nodes, edges := edges,
       selected := if keep then c.selected else if nodes == [] then None else Some(nodes[0].id))
  }

  datatype Edit =
    | Add(added: Node)
    | Accept(source: Id, added: Node)
    | SwitchDraft(draftNodes: seq<Node>, draftEdges: seq<Edge>)
    | Port(node: Id, out: bool)
    | Delete
    | DuplicateChosen(ids: seq<Id>)
    | CopyChosen
    | PasteClipboard(ids: seq<Id>)
    | Select(selected: Option<Id>, multi: seq<Id>, selectedEdge: Option<nat>)
    | CancelPending
    | Rearrange(laid: seq<Node>)
    | AiReplace(prefix: string, steps: seq<Step>, laid: seq<Node>)
    | Merge
    | UndoEdit
    | RedoEdit

  function Perform(c: Canvas, ed: Edit): Canvas
    requires ed.DuplicateChosen? ==> |ed.ids| == |Chosen(c)|
    requires ed.PasteClipboard? ==> |ed.ids| == |c.clipboard|
  {
    match ed
    case Add(n) => AddNode(c, n)
    case Accept(source, n) => AcceptStep(c, source, n)
    case SwitchDraft(nodes, edges) => SwitchTo(c, nodes, edges)
    case Port(node, out) => ClickPort(c, node, out)
    case Delete => DeleteSelected(c)
    case DuplicateChosen(ids) => Duplicate(c, ids)
    case CopyChosen => Copy(c)
    case PasteClipboard(ids) => Paste(c, ids)
    case Select(selected, multi, selectedEdge) => c.(selected := selected, multi := multi, selectedEdge := selectedEdge)
    case CancelPending => c.(pending := None)
    case Rearrange(laid) => c.(nodes := laid)
    case AiReplace(_, _, laid) => if laid == [] then c else c.(nodes := laid, edges := Chain(Ids(laid)))
    case Merge => c.(nodes := MergedNodes(c.nodes, c.edges), edges := MergedEdges(c.nodes, c.edges))
    case UndoEdit => if CanUndo(c.history) then Show(c, Undo(c.history)) else c
    case RedoEdit => if c.history.future == [] then c else Show(c, Redo(c.history))
  }

  /** After every edit the effect records the canvas, unless it is the one recorded last. */
  function Apply(c: Canvas, ed: Edit): Canvas
    requires ed.DuplicateChosen? ==> |ed.ids| == |Chosen(c)|
    requires ed.PasteClipboard? ==> |ed.ids| == |c.clipboard|
  {
    var d := Perform(c, ed);
    d.(history := Push(d.history, Snapshot(d.nodes, d.edges)))
  }

  ghost predicate Fresh(c: Canvas, ids: seq<Id>) {
    Distinct(ids) && forall v :: v in ids ==> v !in IdSet(c.nodes)
  }

  /** New ids are unused, a completed connection starts and ends at nodes on the canvas, moving
      nodes keeps their ids, swaps are merged without a chain of three, and another draft is
      well formed itself. */
  ghost predicate Allowed(c: Canvas, ed: Edit) {
    match ed
    case Add(n) => n.id !in IdSet(c.nodes)
    case Accept(source, n) => source in IdSet(c.nodes) && n.id !in IdSet(c.nodes)
    case SwitchDraft(nodes, edges) => WellFormed(nodes, edges)
    case Port(node, out) => out || (node in IdSet(c.nodes) && (c.pending.Some? ==> c.pending.value in IdSet(c.nodes)))
    case DuplicateChosen(ids) => |ids| == |Chosen(c)| && Fresh(c, ids)
    case PasteClipboard(ids) => |ids| == |c.clipboard| && Fresh(c, ids)
    case Select(_, multi, _) => Distinct(multi)
    case Rearrange(laid) => Ids(laid) == Ids(c.nodes)
    case AiReplace(prefix, steps, laid) => Ids(laid) == Ids(CanvasNodes(prefix, steps))
    case Merge => NoSwapChain(c.nodes, c.edges)
    case _ => true
  }

  // ----- every edit keeps the graph well formed -----

  lemma SameIds(a: seq<Node>, b: seq<Node>)
    requires Ids(a) == Ids(b)
    ensures DistinctIds(a) <==> DistinctIds(b)
    ensures IdSet(a) == IdSet(b)
  {
    assert forall i :: 0 <= i < |a| ==> a[i].id == Ids(a)[i] && b[i].id == Ids(b)[i];
    forall v
      ensures v in IdSet(a) <==> v in IdSet(b)
    {
      if v in IdSet(a) {
        var n :| n in a && n.id == v;
        var i :| 0 <= i < |a| && a[i] == n;
        assert b[i] in b;
      }
      if v in IdSet(b) {
        var n :| n in b && n.id == v;
        var i :| 0 <= i < |b| && b[i] == n;
        assert a[i] in a;
      }
    }
  }

  lemma IdSetConcat(a: seq<Node>, b: seq<Node>)
    ensures IdSet(a + b) == IdSet(a) + IdSet(b)
  {
    forall v | v in IdSet(a) + IdSet(b)
      ensures v in IdSet(a + b)
    {
      var n :| (n in a || n in b) && n.id == v;
      assert n in a + b;
    }
  }

  lemma AppendNodes(nodes: seq<Node>, edges: seq<Edge>, more: seq<Node>)
    requires WellFormed(nodes, edges) && DistinctIds(more)
    requires forall n :: n in more ==> n.id !in IdSet(nodes)
    ensures WellFormed(nodes + more, edges)
    ensures IdSet(nodes + more) == IdSet(nodes) + IdSet(more)
  {
    IdSetConcat(nodes, more);
    assert forall i :: 0 <= i < |nodes| ==> nodes[i] in nodes && nodes[i].id in IdSet(nodes);
    assert forall i :: 0 <= i < |more| ==> more[i] in more;
  }

  lemma AppendEdge(nodes: seq<Node>, edges: seq<Edge>, e: Edge)
    requires WellFormed(nodes, edges) && e !in edges && e.src != e.dst
    requires e.src in IdSet(nodes) && e.dst in IdSet(nodes)
    ensures WellFormed(nodes, edges + [e])
  {
    assert forall i :: 0 <= i < |edges| ==> edges[i] in edges;
  }

  /** A connection keeps the edges closed exactly when its pending source is still there. */
  lemma ConnectKeepsClosedIff(c: Canvas, node: Id)
    requires WellFormed(c.nodes, c.edges) && node in IdSet(c.nodes)
    requires c.pending.Some? && c.pending.value != node
    ensures Closed(c.nodes, ClickPort(c, node, false).edges) <==> c.pending.value in IdSet(c.nodes)
  {
    var e := Edge(c.pending.value, node);
    var after := ClickPort(c, node, false).edges;
    assert e in after by {
      if e !in c.edges {
        assert after[|c.edges|] == e;
      }
    }
  }

  /** Deleting the pending source leaves it pending, and completing the connection then
      leaves a dangling edge. */
  lemma DeleteStrandsPending(c: Canvas, node: Id)
    requires WellFormed(c.nodes, c.edges)
    requires c.selectedEdge.None? && c.multi == [] && c.selected.Some? && c.selected == c.pending
    requires node in IdSet(c.nodes) && node != c.selected.value
    ensures var d := DeleteSelected(c);
            && d.pending == c.pending
            && node in IdSet(d.nodes)
            && !Closed(d.nodes, ClickPort(d, node, false).edges)
  {
    var d := DeleteSelected(c);
    RemoveKeepsWellFormed(c, {c.selected.value});
    KeptNodeIds(c.nodes, {c.selected.value});
    ConnectKeepsClosedIff(d, node);
  }

  lemma {:induction false} KeepNodesDistinct(nodes: seq<Node>, removed: set<Id>)
    requires DistinctIds(nodes)
    ensures DistinctIds(KeepNodes(nodes, removed))
  {
    if nodes != [] {
      var rest := nodes[..|nodes| - 1];
      KeepNodesDistinct(rest, removed);
      var r := KeepNodes(rest, removed);
      assert forall i :: 0 <= i < |r| ==> r[i] in r;
      assert forall n :: n in rest ==> n.id != nodes[|nodes| - 1].id;
    }
  }

  lemma {:induction false} KeepEdgesDistinct(edges: seq<Edge>, removed: set<Id>)
    requires Distinct(edges)
    ensures Distinct(KeepEdges(edges, removed))
  {
    if edges != [] {
      var rest := edges[..|edges| - 1];
      KeepEdgesDistinct(rest, removed);
      var r := KeepEdges(rest, removed);
      assert forall i :: 0 <= i < |r| ==> r[i] in r;
      assert forall e :: e in rest ==> e != edges[|edges| - 1];
    }
  }

  lemma KeptNodeIds(nodes: seq<Node>, removed: set<Id>)
    ensures IdSet(KeepNodes(nodes, removed)) == IdSet(nodes) - removed
  {
    var kept := KeepNodes(nodes, removed);
    forall v | v in IdSet(nodes) && v !in removed
      ensures v in IdSet(kept)
    {
      var n :| n in nodes && n.id == v;
      assert n in kept;
    }
  }

  lemma RemoveKeepsWellFormed(c: Canvas, ids: set<Id>)
    requires WellFormed(c.nodes, c.edges)
    ensures WellFormed(RemoveIds(c, ids).nodes, RemoveIds(c, ids).edges)
  {
    KeepNodesDistinct(c.nodes, ids);
    KeepEdgesDistinct(c.edges, ids);
    KeptNodeIds(c.nodes, ids);
  }

  lemma DropEdgeKeepsWellFormed(nodes: seq<Node>, edges: seq<Edge>, i: nat)
    requires WellFormed(nodes, edges)
    ensures WellFormed(nodes, WithoutIndex(edges, i))
  {
    var r := WithoutIndex(edges, i);
    assert forall e :: e in r ==> e in edges;
    assert forall k :: 0 <= k < |r| ==> r[k] == edges[if i < |edges| && k >= i then k + 1 else k];
  }

  lemma DeleteKeepsWellFormed(c: Canvas)
    requires WellFormed(c.nodes, c.edges)
    ensures WellFormed(DeleteSelected(c).nodes, DeleteSelected(c).edges)
  {
    if c.selectedEdge.Some? {
      DropEdgeKeepsWellFormed(c.nodes, c.edges, c.selectedEdge.value);
    } else if c.multi != [] {
      RemoveKeepsWellFormed(c, set v | v in c.multi);
    } else if c.selected.Some? {
      RemoveKeepsWellFormed(c, {c.selected.value});
    }
  }

  lemma CopiesAreNew(c: Canvas, originals: seq<Node>, ids: seq<Id>, d: real)
    requires WellFormed(c.nodes, c.edges) && Fresh(c, ids) && |ids| == |originals|
    ensures WellFormed(c.nodes + Copies(originals, ids, d), c.edges)
    ensures forall v :: v in ids ==> v in IdSet(c.nodes + Copies(originals, ids, d))
  {
    var copies := Copies(originals, ids, d);
    forall n | n in copies
      ensures n.id in ids
    {
      var i :| 0 <= i < |copies| && copies[i] == n;
    }
    AppendNodes(c.nodes, c.edges, copies);
    forall v | v in ids
      ensures v in IdSet(copies)
    {
      var i :| 0 <= i < |ids| && ids[i] == v;
      assert copies[i] in copies;
    }
  }

  // ----- pasted edges -----

  /** The pasted edges are exactly the renamed edges among the copied nodes. */
  lemma {:induction false} PastedFrom(edges: seq<Edge>, from: seq<Id>, ids: seq<Id>)
    requires |from| == |ids|
    ensures forall p :: p in PastedEdges(edges, from, ids) ==>
              exists e :: e in edges && e.src in from && e.dst in from
                          && p == Edge(ids[IndexOf(from, e.src)], ids[IndexOf(from, e.dst)])
    ensures forall e :: e in edges && e.src in from && e.dst in from ==>
              Edge(ids[IndexOf(from, e.src)], ids[IndexOf(from, e.dst)]) in PastedEdges(edges, from, ids)
  {
    if edges != [] {
      PastedFrom(edges[..|edges| - 1], from, ids);
      assert edges == edges[..|edges| - 1] + [edges[|edges| - 1]];
    }
  }

  lemma SamePlace(from: seq<Id>, ids: seq<Id>, u: Id, v: Id)
    requires |from| == |ids| && Distinct(ids) && u in from && v in from
    requires ids[IndexOf(from, u)] == ids[IndexOf(from, v)]
    ensures u == v
  {}

  lemma {:induction false} PastedDistinct(edges: seq<Edge>, from: seq<Id>, ids: seq<Id>)
    requires |from| == |ids| && Distinct(ids) && Distinct(edges)
    ensures Distinct(PastedEdges(edges, from, ids))
  {
    if edges != [] {
      var rest, e := edges[..|edges| - 1], edges[|edges| - 1];
      PastedDistinct(rest, from, ids);
      if e.src in from && e.dst in from {
        var r := PastedEdges(rest, from, ids);
        var p := Edge(ids[IndexOf(from, e.src)], ids[IndexOf(from, e.dst)]);
        PastedFrom(rest, from, ids);
        if p in r {
          var e' :| e' in rest && e'.src in from && e'.dst in from
                    && p == Edge(ids[IndexOf(from, e'.src)], ids[IndexOf(from, e'.dst)]);
          SamePlace(from, ids, e.src, e'.src);
          SamePlace(from, ids, e.dst, e'.dst);
        }
        assert p !in r;
        assert forall i :: 0 <= i < |r| ==> r[i] in r;
      }
    }
  }

  lemma PasteKeepsWellFormed(c: Canvas, ids: seq<Id>)
    requires WellFormed(c.nodes, c.edges) && Fresh(c, ids) && |ids| == |c.clipboard|
    ensures WellFormed(Paste(c, ids).nodes, Paste(c, ids).edges)
  {
    if c.clipboard != [] {
      var from := Ids(c.clipboard);
      var nodes, more := Paste(c, ids).nodes, PastedEdges(c.edges, from, ids);
      CopiesAreNew(c, c.clipboard, ids, 32.0);
      PastedFrom(c.edges, from, ids);
      PastedDistinct(c.edges, from, ids);
      forall p | p in more
        ensures p.src in ids && p.dst in ids && p.src != p.dst && p !in c.edges
      {
        var e :| e in c.edges && e.src in from && e.dst in from
                 && p == Edge(ids[IndexOf(from, e.src)], ids[IndexOf(from, e.dst)]);
        if p.src == p.dst {
          SamePlace(from, ids, e.src, e.dst);
        }
        assert p.src in ids;
      }
      AppendEdges(nodes, c.edges, more);
    }
  }

  lemma AppendEdges(nodes: seq<Node>, edges: seq<Edge>, more: seq<Edge>)
    requires WellFormed(nodes, edges) && Distinct(more)
    requires forall e :: e in more ==> e.src in IdSet(nodes) && e.dst in IdSet(nodes) && e.src != e.dst && e !in edges
    ensures WellFormed(nodes, edges + more)
  {
    assert forall i :: 0 <= i < |edges| ==> edges[i] in edges;
    assert forall i :: 0 <= i < |more| ==> more[i] in more;
  }

  // ----- merged swaps and compiled steps -----

  lemma {:induction false} LinkAllDistinct(out: seq<Edge>, a: Id, targets: seq<Id>)
    requires Distinct(out)
    ensures Distinct(LinkAll(out, a, targets))
  {
    if targets != [] {
      LinkAllDistinct(out, a, targets[..|targets| - 1]);
      var r := LinkAll(out, a, targets[..|targets| - 1]);
      assert forall i :: 0 <= i < |r| ==> r[i] in r;
    }
  }

  lemma {:induction false} RejoinDistinct(out: seq<Edge>, edges: seq<Edge>, pairs: seq<Edge>)
    requires Distinct(out)
    ensures Distinct(Rejoin(out, edges, pairs))
  {
    if pairs != [] {
      var p := pairs[|pairs| - 1];
      RejoinDistinct(out, edges, pairs[..|pairs| - 1]);
      LinkAllDistinct(Rejoin(out, edges, pairs[..|pairs| - 1]), p.src, Succs(edges, p.dst));
    }
  }

  lemma MergeKeepsWellFormed(nodes: seq<Node>, edges: seq<Edge>)
    requires WellFormed(nodes, edges) && NoSwapChain(nodes, edges)
    ensures WellFormed(MergedNodes(nodes, edges), MergedEdges(nodes, edges))
  {
    var pairs := SwapPairs(nodes, edges);
    KeepNodesDistinct(nodes, Seconds(pairs));
    KeepEdgesDistinct(edges, Seconds(pairs));
    RejoinDistinct(KeepEdges(edges, Seconds(pairs)), edges, pairs);
    MergeClosedIff(nodes, edges);
    forall e | e in MergedEdges(nodes, edges)
      ensures e.src != e.dst
    {
      MergedEdgeIff(nodes, edges, e);
      if Bridged(nodes, edges, e.src, e.dst) {
        var b :| Edge(e.src, b) in pairs && Edge(b, e.dst) in edges;
        assert Edge(e.src, b).dst != Edge(b, e.dst).src || Edge(b, e.dst) !in pairs;
      }
    }
  }

  lemma PathIsWellFormed(nodes: seq<Node>)
    requires nodes != [] && DistinctIds(nodes)
    ensures WellFormed(nodes, Chain(Ids(nodes)))
  {
    var edges := Chain(Ids(nodes));
    PathIsClosed(nodes, edges);
    forall e | e in edges
      ensures e.src != e.dst
    {
      var i := PathEdge(nodes, edges, e);
    }
  }

  // ----- the editor invariant -----

  ghost predicate GoodSnapshots(snapshots: seq<Snapshot>) {
    forall s :: s in snapshots ==> WellFormed(s.nodes, s.edges)
  }

  /** The canvas is well formed and is the snapshot on top of the past; every snapshot is well
      formed; the two stacks hold at most fifty; selection and clipboard repeat no id. */
  ghost predicate Valid(c: Canvas) {
    && WellFormed(c.nodes, c.edges)
    && Consistent(c.history)
    && c.history.last == Some(Snapshot(c.nodes, c.edges))
    && GoodSnapshots(c.history.past) && GoodSnapshots(c.history.future)
    && Distinct(c.multi) && DistinctIds(c.clipboard)
  }

  lemma AcceptKeepsWellFormed(c: Canvas, source: Id, n: Node)
    requires WellFormed(c.nodes, c.edges) && source in IdSet(c.nodes) && n.id !in IdSet(c.nodes)
    ensures WellFormed(AcceptStep(c, source, n).nodes, AcceptStep(c, source, n).edges)
  {
    AppendNodes(c.nodes, c.edges, [n]);
    assert n in [n] && n.id in IdSet([n]);
    AppendEdge(c.nodes + [n], c.edges, Edge(source, n.id));
  }

  lemma EditKeepsWellFormed(c: Canvas, ed: Edit)
    requires WellFormed(c.nodes, c.edges) && Allowed(c, ed)
    requires !ed.UndoEdit? && !ed.RedoEdit?
    ensures WellFormed(Perform(c, ed).nodes, Perform(c, ed).edges)
  {
    match ed
    case Add(n) =>
      AppendNodes(c.nodes, c.edges, [n]);
    case Accept(source, n) =>
      AcceptKeepsWellFormed(c, source, n);
    case Port(node, out) =>
      if !out && c.pending.Some? && c.pending.value != node && Edge(c.pending.value, node) !in c.edges {
        AppendEdge(c.nodes, c.edges, Edge(c.pending.value, node));
      }
    case Delete =>
      DeleteKeepsWellFormed(c);
    case DuplicateChosen(ids) =>
      var found := FindAll(c.nodes, Chosen(c));
      if found.Some? {
        CopiesAreNew(c, found.value, ids, 24.0);
      }
    case PasteClipboard(ids) =>
      PasteKeepsWellFormed(c, ids);
    case Rearrange(laid) =>
      SameIds(laid, c.nodes);
    case AiReplace(prefix, steps, laid) =>
      CanvasIdsDistinct(prefix, steps);
      SameIds(laid, CanvasNodes(prefix, steps));
      if laid != [] {
        PathIsWellFormed(laid);
      }
    case Merge =>
      MergeKeepsWellFormed(c.nodes, c.edges);
    case _ =>
  }

  lemma EditKeepsSelection(c: Canvas, ed: Edit)
    requires Distinct(c.multi) && DistinctIds(c.clipboard) && Allowed(c, ed)
    ensures Distinct(Perform(c, ed).multi) && DistinctIds(Perform(c, ed).clipboard)
  {
    if ed.CopyChosen? {
      var found := FindAll(c.nodes, Chosen(c));
    }
  }

  lemma PushKeepsGood(h: Stacks, s: Snapshot)
    requires Consistent(h) && GoodSnapshots(h.past) && GoodSnapshots(h.future) && WellFormed(s.nodes, s.edges)
    ensures Consistent(Push(h, s)) && Push(h, s).last == Some(s)
    ensures GoodSnapshots(Push(h, s).past) && GoodSnapshots(Push(h, s).future)
  {}

  lemma UndoKeepsGood(h: Stacks)
    requires Consistent(h) && GoodSnapshots(h.past) && GoodSnapshots(h.future) && CanUndo(h)
    ensures Consistent(Undo(h)) && GoodSnapshots(Undo(h).past) && GoodSnapshots(Undo(h).future)
    ensures Undo(h).last.value in Undo(h).past
  {
    var n := |h.past|;
    assert h.past[n - 1] in h.past && Undo(h).past[n - 2] == h.past[n - 2];
  }

  lemma RedoKeepsGood(h: Stacks)
    requires Consistent(h) && GoodSnapshots(h.past) && GoodSnapshots(h.future) && h.future != []
    ensures Consistent(Redo(h)) && GoodSnapshots(Redo(h).past) && GoodSnapshots(Redo(h).future)
    ensures Redo(h).last.value in Redo(h).past
  {
    var next := h.future[|h.future| - 1];
    assert next in h.future && Redo(h).past[|h.past|] == next;
  }

  /** Every allowed edit, undo and redo included, keeps the editor valid. */
  lemma StepKeepsValid(c: Canvas, ed: Edit)
    requires Valid(c) && Allowed(c, ed)
    ensures Valid(Apply(c, ed))
  {
    var d := Perform(c, ed);
    EditKeepsSelection(c, ed);
    if ed.UndoEdit? {
      if CanUndo(c.history) {
        UndoKeepsGood(c.history);
      }
    } else if ed.RedoEdit? {
      if c.history.future != [] {
        RedoKeepsGood(c.history);
      }
    } else {
      EditKeepsWellFormed(c, ed);
      PushKeepsGood(d.history, Snapshot(d.nodes, d.edges));
    }
  }

  // ----- exactly which edits break the editor -----

  /** What the interface lets through: ports of nodes on the canvas, whatever the pending source;
      a merge whenever the tip is shown; everything else as allowed. */
  ghost predicate Offered(c: Canvas, ed: Edit) {
    match ed
    case Port(node, _) => node in IdSet(c.nodes)
    case Merge => true
    case _ => Allowed(c, ed)
  }

  lemma StrayPortBreaks(c: Canvas, node: Id)
    requires Valid(c) && node in IdSet(c.nodes) && c.pending.Some? && c.pending.value !in IdSet(c.nodes)
    ensures !Valid(Apply(c, Port(node, false)))
  {
    ConnectKeepsClosedIff(c, node);
  }

  lemma DanglingIsInvalid(c: Canvas)
    requires !Closed(c.nodes, c.edges)
    ensures !Valid(c)
  {}

  lemma MergeShown(c: Canvas)
    ensures Apply(c, Merge).nodes == MergedNodes(c.nodes, c.edges)
    ensures Apply(c, Merge).edges == MergedEdges(c.nodes, c.edges)
  {}

  lemma ChainedMergeBreaks(c: Canvas)
    requires Closed(c.nodes, c.edges) && !NoSwapChain(c.nodes, c.edges)
    ensures !Valid(Apply(c, Merge))
  {
    MergeClosedIff(c.nodes, c.edges);
    MergeShown(c);
    DanglingIsInvalid(Apply(c, Merge));
  }

  /** An edit that the interface offers keeps the editor valid exactly when it is allowed: a
      connection needs its source on the canvas, and a merge must not meet a chain of swaps. */
  lemma StepValidIff(c: Canvas, ed: Edit)
    requires Valid(c) && Offered(c, ed)
    ensures Valid(Apply(c, ed)) <==> Allowed(c, ed)
  {
    if Allowed(c, ed) {
      StepKeepsValid(c, ed);
    } else if ed.Merge? {
      ChainedMergeBreaks(c);
    } else {
      StrayPortBreaks(c, ed.node);
    }
  }

  /** The canvases a session passes. */
  ghost predicate IsTrace(edits: seq<Edit>, cs: seq<Canvas>) {
    && |cs| == |edits| + 1
    && forall i :: 0 <= i < |edits| ==> Offered(cs[i], edits[i]) && cs[i + 1] == Apply(cs[i], edits[i])
  }

  lemma {:induction false} AllowedSoFar(edits: seq<Edit>, cs: seq<Canvas>, k: nat)
    requires IsTrace(edits, cs) && Valid(cs[0]) && k < |cs|
    requires forall i: nat :: i < k ==> Allowed(cs[i], edits[i])
    ensures Valid(cs[k])
  {
    if k > 0 {
      AllowedSoFar(edits, cs, k - 1);
      StepKeepsValid(cs[k - 1], edits[k - 1]);
    }
  }

  /** A session stays valid throughout exactly when every edit was allowed where it happened. */
  lemma SessionValidIff(edits: seq<Edit>, cs: seq<Canvas>)
    requires IsTrace(edits, cs) && Valid(cs[0])
    ensures (forall i: nat :: i < |cs| ==> Valid(cs[i])) <==> forall i: nat :: i < |edits| ==> Allowed(cs[i], edits[i])
  {
    if forall i: nat :: i < |cs| ==> Valid(cs[i]) {
      forall i: nat | i < |edits|
        ensures Allowed(cs[i], edits[i])
      {
        assert Valid(cs[i]) && Valid(cs[i + 1]);
        StepValidIff(cs[i], edits[i]);
      }
    }
    if forall i: nat :: i < |edits| ==> Allowed(cs[i], edits[i]) {
      forall i: nat | i < |cs|
        ensures Valid(cs[i])
      {
        AllowedSoFar(edits, cs, i);
      }
    }
  }

  /** The history survives a switch of drafts, so undo puts the graph of the draft left behind
      into the draft now open. */
  lemma UndoCrossesDrafts(c: Canvas, nodes: seq<Node>, edges: seq<Edge>)
    requires Valid(c) && WellFormed(nodes, edges)
    requires Snapshot(nodes, edges) != Snapshot(c.nodes, c.edges)
    ensures var d := Apply(Apply(c, SwitchDraft(nodes, edges)), UndoEdit);
            d.nodes == c.nodes && d.edges == c.edges
  {}

  /** The editor on a given graph, after its first effect. */
  function Open(nodes: seq<Node>, edges: seq<Edge>): Canvas {
    var s := Snapshot(nodes, edges);
    Canvas(nodes, edges, None, [], None, None, [], Push(Stacks([], [], None), s))
  }

  ghost predicate IsSession(start: Canvas, edits: seq<Edit>, c: Canvas) {
    if edits == [] then c == start
    else
      var ed := edits[|edits| - 1];
      exists d :: IsSession(start, edits[..|edits| - 1], d) && Allowed(d, ed) && c == Apply(d, ed)
  }

  lemma LastEdit(start: Canvas, edits: seq<Edit>, c: Canvas) returns (d: Canvas)
    requires edits != [] && IsSession(start, edits, c)
    ensures IsSession(start, edits[..|edits| - 1], d) && Allowed(d, edits[|edits| - 1])
    ensures c == Apply(d, edits[|edits| - 1])
  {
    var ed := edits[|edits| - 1];
    d :| IsSession(start, edits[..|edits| - 1], d) && Allowed(d, ed) && c == Apply(d, ed);
  }

  /** In every session from a well-formed graph: ids stay distinct, edges closed, without
      self-loops or parallels, and past and future hold at most fifty snapshots. */
  lemma {:induction false} SessionsStayValid(nodes: seq<Node>, edges: seq<Edge>, edits: seq<Edit>, c: Canvas)
    requires WellFormed(nodes, edges) && IsSession(Open(nodes, edges), edits, c)
    ensures Valid(c)
    ensures |c.history.past| + |c.history.future| <= MAX_PAST
  {
    if edits != [] {
      var d := LastEdit(Open(nodes, edges), edits, c);
      SessionsStayValid(nodes, edges, edits[..|edits| - 1], d);
      StepKeepsValid(d, edits[|edits| - 1]);
    }
  }

  // ----- undo and redo of whole edits -----

  function Undone(c: Canvas, k: nat): Canvas
    decreases k
  {
    if k == 0 then c else Undone(Apply(c, UndoEdit), k - 1)
  }

  function Redone(c: Canvas, k: nat): Canvas {
    if k == 0 then c else Apply(Redone(c, k - 1), RedoEdit)
  }

  /** The effect that follows an undo or a redo records nothing new. */
  lemma StepsOnlyMoveStacks(c: Canvas)
    requires Valid(c)
    ensures Apply(c, UndoEdit).history == Undo(c.history)
    ensures Apply(c, RedoEdit).history == Redo(c.history)
  {}

  lemma {:induction false} UndoneStacks(c: Canvas, k: nat)
    requires Valid(c)
    ensures Valid(Undone(c, k)) && Undone(c, k).history == UndoTimes(c.history, k)
    decreases k
  {
    if k > 0 {
      StepKeepsValid(c, UndoEdit);
      StepsOnlyMoveStacks(c);
      UndoneStacks(Apply(c, UndoEdit), k - 1);
    }
  }

  lemma {:induction false} RedoneStacks(c: Canvas, k: nat)
    requires Valid(c)
    ensures Valid(Redone(c, k)) && Redone(c, k).history == RedoTimes(c.history, k)
  {
    if k > 0 {
      RedoneStacks(c, k - 1);
      StepKeepsValid(Redone(c, k - 1), RedoEdit);
      StepsOnlyMoveStacks(Redone(c, k - 1));
    }
  }

  /** `k` undos then `k` redos bring the graph and both stacks back exactly when there is
      enough past to undo or nothing had been undone before. */
  lemma UndoThenRedoRestoresIff(c: Canvas, k: nat)
    requires Valid(c)
    ensures var d := Redone(Undone(c, k), k);
            d.nodes == c.nodes && d.edges == c.edges && d.history == c.history
            <==> k < |c.history.past| || c.history.future == []
  {
    UndoneStacks(c, k);
    RedoneStacks(Undone(c, k), k);
    UndosThenRedosIff(c.history, k);
  }
}
