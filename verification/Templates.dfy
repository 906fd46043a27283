/** Drafts made from templates (`createDraft`) and from community strategies (`forkCommunity`). */
module Templates {
  import opened Graph
  import opened Naming
  import opened WalkOrder
  import opened Cycles
  import opened Renaming
  import opened RenamedSearch

  datatype Template = Template(nodes: seq<Node>, edges: seq<Edge>)

  /** What a missing entry of the id map reads as, used as an object key. */
  const UNDEFINED: Id := "undefined"

  /** `n<i+1>-<draft id>` */
  function DraftId(i: nat, draft: Id): Id {
    "n" + Decimal(i + 1) + ("-" + draft)
  }

  /** The id map after the first nodes of the template; a repeated id keeps its last entry. */
  function IdMap(nodes: seq<Node>, draft: Id): map<Id, Id> {
    if nodes == [] then map[]
    else
      var i := |nodes| - 1;
      IdMap(nodes[..i], draft)[nodes[i].id := DraftId(i, draft)]
  }

  function Lookup(m: map<Id, Id>, v: Id): Id {
    if v in m then m[v] else UNDEFINED
  }

  function Renamer(t: Template, draft: Id): Id -> Id {
    v => Lookup(IdMap(t.nodes, draft), v)
  }

  // ----- the map is injective -----

  lemma DraftIdInjective(i: nat, j: nat, draft: Id)
    requires DraftId(i, draft) == DraftId(j, draft)
    ensures i == j
  {
    SuffixedInjective("n" + Decimal(i + 1), "n" + Decimal(j + 1), "-" + draft);
    PrefixedInjective("n", Decimal(i + 1), Decimal(j + 1));
    DecimalInjective(i + 1, j + 1);
  }

  /** A draft id counts its node from one. */
  lemma DraftIdNumbers(i: nat, draft: Id)
    ensures DraftId(i, draft)[0] == 'n' && Numeral(Decimal(i + 1)) == i + 1
    ensures DraftId(i, draft)[1..] == Decimal(i + 1) + "-" + draft
  {
    DecimalReadsBack(i + 1);
  }

  lemma {:induction false} IdMapKeys(nodes: seq<Node>, draft: Id)
    ensures IdMap(nodes, draft).Keys == IdSet(nodes)
  {
    if nodes != [] {
      var rest, n := nodes[..|nodes| - 1], nodes[|nodes| - 1];
      IdMapKeys(rest, draft);
      assert nodes == rest + [n];
    }
  }

  /** The position whose new id stands for `v`. */
  lemma {:induction false} IdMapEntry(nodes: seq<Node>, draft: Id, v: Id) returns (i: nat)
    requires v in IdMap(nodes, draft)
    ensures i < |nodes| && nodes[i].id == v && IdMap(nodes, draft)[v] == DraftId(i, draft)
  {
    i := |nodes| - 1;
    if nodes[i].id != v {
      i := IdMapEntry(nodes[..i], draft, v);
    }
  }

  /** An edge end that is no node of the template becomes `undefined`. */
  lemma StrayEndsAreUndefined(t: Template, draft: Id, v: Id)
    ensures v !in IdSet(t.nodes) ==> Renamer(t, draft)(v) == UNDEFINED
    ensures v in IdSet(t.nodes) ==>
              exists i: nat :: i < |t.nodes| && t.nodes[i].id == v && Renamer(t, draft)(v) == DraftId(i, draft)
  {
    IdMapKeys(t.nodes, draft);
    if v in IdSet(t.nodes) {
      var i := IdMapEntry(t.nodes, draft, v);
    }
  }

  lemma PositionInMap(nodes: seq<Node>, draft: Id, i: nat)
    requires DistinctIds(nodes) && i < |nodes|
    ensures Lookup(IdMap(nodes, draft), nodes[i].id) == DraftId(i, draft)
  {
    IdMapKeys(nodes, draft);
    assert nodes[i] in nodes;
    var j := IdMapEntry(nodes, draft, nodes[i].id);
  }

  /** The id map never sends two ids of a template to the same new id. */
  lemma IdMapInjective(nodes: seq<Node>, draft: Id)
    ensures Injective(v => Lookup(IdMap(nodes, draft), v), IdSet(nodes))
  {
    var m := IdMap(nodes, draft);
    IdMapKeys(nodes, draft);
    forall u, v | u in IdSet(nodes) && v in IdSet(nodes) && Lookup(m, u) == Lookup(m, v)
      ensures u == v
    {
      var i := IdMapEntry(nodes, draft, u);
      var j := IdMapEntry(nodes, draft, v);
      DraftIdInjective(i, j, draft);
    }
  }

  // ----- the loops of the source -----

  method BuildIdMap(nodes: seq<Node>, draft: Id) returns (idMap: map<Id, Id>)
    ensures idMap == IdMap(nodes, draft)
  {
    idMap := map[];
    for i := 0 to |nodes|
      invariant idMap == IdMap(nodes[..i], draft)
    {
      assert nodes[..i + 1][..i] == nodes[..i];
      idMap := idMap[nodes[i].id := DraftId(i, draft)];
    }
    assert nodes[..|nodes|] == nodes;
  }

  method CreateDraft(t: Template, draft: Id) returns (d: Template)
    ensures |d.nodes| == |t.nodes|
    ensures forall i :: 0 <= i < |t.nodes| ==> d.nodes[i] == t.nodes[i].(id := DraftId(i, draft))
    ensures d.edges == MapEdges(Renamer(t, draft), t.edges)
    ensures d.nodes == MapNodes(Renamer(t, draft), t.nodes) <==> DistinctIds(t.nodes)
  {
    var nodes := seq(|t.nodes|, i requires 0 <= i < |t.nodes| => t.nodes[i].(id := DraftId(i, draft)));
    d := Template(nodes, []);
    var idMap := BuildIdMap(t.nodes, draft);
    d := d.(edges := seq(|t.edges|, i requires 0 <= i < |t.edges| =>
      Edge(Lookup(idMap, t.edges[i].src), Lookup(idMap, t.edges[i].dst))));
    NumberedIsRenamedIff(t, draft);
    var f := Renamer(t, draft);
    assert forall i :: 0 <= i < |t.nodes| ==> MapNodes(f, t.nodes)[i].id == f(t.nodes[i].id);
    assert forall i :: 0 <= i < |t.nodes| ==> d.nodes[i].id == DraftId(i, draft);
  }

  method ForkCommunity(t: Template, draft: Id) returns (d: Template)
    ensures d == Template(MapNodes(Renamer(t, draft), t.nodes), MapEdges(Renamer(t, draft), t.edges))
  {
    var idMap := BuildIdMap(t.nodes, draft);
    d := Template(
      seq(|t.nodes|, i requires 0 <= i < |t.nodes| => t.nodes[i].(id := Lookup(idMap, t.nodes[i].id))),
      seq(|t.edges|, i requires 0 <= i < |t.edges| =>
        Edge(Lookup(idMap, t.edges[i].src), Lookup(idMap, t.edges[i].dst))));
  }

  // ----- both are the same renaming -----

  /** Numbering the nodes by position, as `createDraft` does, agrees with looking them up in
      the id map, as `forkCommunity` does, exactly when no id repeats. */
  lemma NumberedIsRenamedIff(t: Template, draft: Id)
    ensures (forall i :: 0 <= i < |t.nodes| ==> DraftId(i, draft) == Lookup(IdMap(t.nodes, draft), t.nodes[i].id))
            <==> DistinctIds(t.nodes)
  {
    if DistinctIds(t.nodes) {
      forall i | 0 <= i < |t.nodes|
        ensures DraftId(i, draft) == Lookup(IdMap(t.nodes, draft), t.nodes[i].id)
      {
        PositionInMap(t.nodes, draft, i);
      }
    }
    if forall i :: 0 <= i < |t.nodes| ==> DraftId(i, draft) == Lookup(IdMap(t.nodes, draft), t.nodes[i].id) {
      forall i, j | 0 <= i < j < |t.nodes|
        ensures t.nodes[i].id != t.nodes[j].id
      {
        if DraftId(i, draft) == DraftId(j, draft) {
          DraftIdInjective(i, j, draft);
        }
      }
    }
  }

  /** The draft of a closed template is the template under an injective renaming: it walks in
      the renamed order and the detector reports the renamed cycle, or none for both. */
  lemma DraftBehavesAsTemplate(t: Template, draft: Id)
    requires Closed(t.nodes, t.edges)
    ensures var f := Renamer(t, draft);
            && Injective(f, IdSet(t.nodes))
            && Order(MapNodes(f, t.nodes), MapEdges(f, t.edges)) == MapIds(f, Order(t.nodes, t.edges))
            && FindCycle(MapNodes(f, t.nodes), MapEdges(f, t.edges)) == MapCycle(f, FindCycle(t.nodes, t.edges))
  {
    var f := Renamer(t, draft);
    IdMapInjective(t.nodes, draft);
    assert Injective(f, IdSet(t.nodes));
    OrderRenamed(f, IdSet(t.nodes), t.nodes, t.edges);
    FindCycleRenamed(f, IdSet(t.nodes), t.nodes, t.edges);
  }

  /** A draft of a closed template without repeated ids is closed and repeats no id. */
  lemma DraftIsClosed(t: Template, draft: Id)
    requires Closed(t.nodes, t.edges) && DistinctIds(t.nodes)
    ensures var f := Renamer(t, draft);
            && DistinctIds(MapNodes(f, t.nodes))
            && Closed(MapNodes(f, t.nodes), MapEdges(f, t.edges))
  {
    var f := Renamer(t, draft);
    IdMapInjective(t.nodes, draft);
    assert forall n :: n in t.nodes ==> n.id in IdSet(t.nodes);
    forall e | e in MapEdges(f, t.edges)
      ensures e.src in IdSet(MapNodes(f, t.nodes)) && e.dst in IdSet(MapNodes(f, t.nodes))
    {
      var i :| 0 <= i < |t.edges| && MapEdges(f, t.edges)[i] == e;
      assert t.edges[i] in t.edges;
      IdRenamed(f, IdSet(t.nodes), t.nodes, t.edges[i].src);
      IdRenamed(f, IdSet(t.nodes), t.nodes, t.edges[i].dst);
    }
    forall i, j | 0 <= i < j < |t.nodes|
      ensures f(t.nodes[i].id) != f(t.nodes[j].id)
    {
      assert t.nodes[i] in t.nodes && t.nodes[j] in t.nodes;
    }
  }
}
