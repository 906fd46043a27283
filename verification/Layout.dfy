/** `organizeLayout`: ranks, columns and rows. */
module Layout {
  import opened Graph
  import opened Traversal
  import opened WalkOrder
  import opened Ranks

  const PAD_X: real := 32.0
  const PAD_Y: real := 36.0
  const NODE_W: real := 124.0
  const NODE_H: real := 56.0

  // ----- ranks, as the source computes them -----

  /** Raises the rank of each target to `newR` where it is lower or missing. */
  function Raise(rank: map<Id, nat>, targets: seq<Id>, newR: nat): map<Id, nat> {
    if targets == [] then rank
    else
      var w := targets[|targets| - 1];
      var before := Raise(rank, targets[..|targets| - 1], newR);
      if w !in before || newR > before[w] then before[w := newR] else before
  }

  /** The ranks once the items of `visited` have raised their targets. */
  function RankMap(roots: seq<Id>, edges: seq<Edge>, visited: seq<Item>): map<Id, nat> {
    if visited == [] then map v | v in roots :: 0
    else
      var it := visited[|visited| - 1];
      Raise(RankMap(roots, edges, visited[..|visited| - 1]), Succs(edges, it.id), it.level + 1)
  }

  function Value(rank: map<Id, nat>, w: Id): nat {
    if w in rank then rank[w] else 0
  }

  lemma {:induction false} RaiseValue(rank: map<Id, nat>, targets: seq<Id>, newR: nat, w: Id)
    ensures Value(Raise(rank, targets, newR), w) == if w in targets then Max(Value(rank, w), newR) else Value(rank, w)
  {
    if targets != [] {
      RaiseValue(rank, targets[..|targets| - 1], newR, w);
      assert targets == targets[..|targets| - 1] + [targets[|targets| - 1]];
    }
  }

  lemma {:induction false} RankMapValue(roots: seq<Id>, edges: seq<Edge>, visited: seq<Item>, w: Id)
    ensures Value(RankMap(roots, edges, visited), w) == RankFrom(edges, visited, w)
  {
    if visited != [] {
      var it, rest := visited[|visited| - 1], visited[..|visited| - 1];
      RankMapValue(roots, edges, rest, w);
      RaiseValue(RankMap(roots, edges, rest), Succs(edges, it.id), it.level + 1, w);
    }
  }

  lemma RaiseNext(rank: map<Id, nat>, targets: seq<Id>, w: Id, newR: nat)
    ensures var before := Raise(rank, targets, newR);
            Raise(rank, targets + [w], newR) == if w !in before || newR > before[w] then before[w := newR] else before
    ensures Expand(targets + [w], newR) == Expand(targets, newR) + [Item(w, newR)]
  {
    assert (targets + [w])[..|targets + [w]| - 1] == targets;
  }

  lemma SuccsNext(edges: seq<Edge>, j: nat, v: Id)
    requires j < |edges|
    ensures Succs(edges[..j + 1], v)
         == if edges[j].src == v then Succs(edges[..j], v) + [edges[j].dst] else Succs(edges[..j], v)
  {
    assert edges[..j + 1] == edges[..j] + [edges[j]];
    SuccsAppend(edges[..j], edges[j], v);
  }

  /** The ranks once the first `j` edges are seen. */
  function Raised(rank: map<Id, nat>, edges: seq<Edge>, j: nat, it: Item): map<Id, nat>
    requires j <= |edges|
  {
    Raise(rank, Succs(edges[..j], it.id), it.level + 1)
  }

  function Extended(queue: seq<Item>, edges: seq<Edge>, j: nat, it: Item): seq<Item>
    requires j <= |edges|
  {
    queue + Expand(Succs(edges[..j], it.id), it.level + 1)
  }

  lemma RaisedNext(rank: map<Id, nat>, queue: seq<Item>, edges: seq<Edge>, j: nat, it: Item)
    requires j < |edges|
    ensures var before, e, newR := Raised(rank, edges, j, it), edges[j], it.level + 1;
            && Raised(rank, edges, j + 1, it)
               == (if e.src == it.id && (e.dst !in before || newR > before[e.dst]) then before[e.dst := newR]
                   else before)
            && Extended(queue, edges, j + 1, it)
               == Extended(queue, edges, j, it) + if e.src == it.id then [Item(e.dst, newR)] else []
  {
    SuccsNext(edges, j, it.id);
    var succs := Succs(edges[..j], it.id);
    if edges[j].src == it.id {
      RaiseNext(rank, succs, edges[j].dst, it.level + 1);
    } else {
      assert Extended(queue, edges, j, it) + [] == Extended(queue, edges, j, it);
    }
  }

  lemma NothingRaised(rank: map<Id, nat>, queue: seq<Item>, edges: seq<Edge>, it: Item)
    ensures Raised(rank, edges, 0, it) == rank && Extended(queue, edges, 0, it) == queue
  {
    assert edges[..0] == [] && queue + [] == queue;
  }

  method Relax(rank0: map<Id, nat>, queue0: seq<Item>, edges: seq<Edge>, it: Item)
    returns (rank: map<Id, nat>, queue: seq<Item>)
    ensures rank == Raise(rank0, Succs(edges, it.id), it.level + 1)
    ensures queue == queue0 + Expand(Succs(edges, it.id), it.level + 1)
  {
    rank, queue := rank0, queue0;
    NothingRaised(rank0, queue0, edges, it);
    var newR := it.level + 1;
    for j := 0 to |edges|
      invariant rank == Raised(rank0, edges, j, it)
      invariant queue == Extended(queue0, edges, j, it)
    {
      RaisedNext(rank0, queue0, edges, j, it);
      var e := edges[j];
      if e.src == it.id {
        if e.dst !in rank || newR > rank[e.dst] {
          rank := rank[e.dst := newR];
        }
        queue := queue + [Item(e.dst, newR)];
      }
    }
    assert edges[..|edges|] == edges;
  }

  lemma RankMapGrows(roots: seq<Id>, edges: seq<Edge>, visited: seq<Item>, it: Item)
    ensures RankMap(roots, edges, visited + [it])
         == Raise(RankMap(roots, edges, visited), Succs(edges, it.id), it.level + 1)
  {
    assert (visited + [it])[..|visited|] == visited;
  }

  method VisitHead(ghost roots: seq<Id>, edges: seq<Edge>, queue0: seq<Item>, ghost visited0: seq<Item>,
                   rank0: map<Id, nat>)
    returns (rank: map<Id, nat>, queue: seq<Item>, ghost visited: seq<Item>)
    requires queue0 != [] && queue0[0].id !in Seen(visited0)
    requires rank0 == RankMap(roots, edges, visited0)
    ensures visited == visited0 + [queue0[0]]
    ensures rank == RankMap(roots, edges, visited)
    ensures Bfs(edges, queue, visited) == Bfs(edges, queue0, visited0)
    ensures Todo(edges, queue, visited) < Todo(edges, queue0, visited0)
  {
    visited := visited0 + [queue0[0]];
    rank, queue := Relax(rank0, queue0[1..], edges, queue0[0]);
    BfsVisit(edges, queue0, visited0, queue, visited);
    RankMapGrows(roots, edges, visited0, queue0[0]);
  }

  method RankFromRoots(roots: seq<Id>, edges: seq<Edge>) returns (rank: map<Id, nat>)
    ensures rank == RankMap(roots, edges, Bfs(edges, Expand(roots, 0), []))
  {
    rank := map v | v in roots :: 0;
    var queue := Expand(roots, 0);
    var seen: set<Id> := {};
    ghost var visited: seq<Item> := [];
    while queue != []
      invariant seen == Seen(visited)
      invariant Bfs(edges, queue, visited) == Bfs(edges, Expand(roots, 0), [])
      invariant rank == RankMap(roots, edges, visited)
      decreases Todo(edges, queue, visited), |queue|
    {
      var it := queue[0];
      if it.id in seen {
        BfsSkip(edges, queue, visited);
        queue := queue[1..];
      } else {
        SeenGrows(visited, it);
        seen := seen + {it.id};
        rank, queue, visited := VisitHead(roots, edges, queue, visited, rank);
      }
    }
  }

  /** Nodes without a rank get rank 0. */
  method RankRest(rank0: map<Id, nat>, nodes: seq<Node>) returns (rank: map<Id, nat>)
    ensures forall w :: Value(rank, w) == Value(rank0, w)
    ensures forall n :: n in nodes ==> n.id in rank
  {
    rank := rank0;
    for i := 0 to |nodes|
      invariant forall w :: Value(rank, w) == Value(rank0, w)
      invariant forall k :: 0 <= k < i ==> nodes[k].id in rank
    {
      if nodes[i].id !in rank {
        rank := rank[nodes[i].id := 0];
      }
    }
  }

  method ComputeRanks(nodes: seq<Node>, edges: seq<Edge>) returns (rank: map<Id, nat>)
    ensures forall n :: n in nodes ==> n.id in rank && rank[n.id] == Rank(nodes, edges, n.id)
  {
    var roots := FindRoots(nodes, edges);
    var reached := RankFromRoots(roots, edges);
    rank := RankRest(reached, nodes);
    forall n | n in nodes
      ensures Value(rank, n.id) == Rank(nodes, edges, n.id)
    {
      RankMapValue(roots, edges, Reached(nodes, edges), n.id);
    }
  }

  // ----- geometry -----

  function MaxReal(a: real, b: real): real {
    if a < b then b else a
  }

  function MinReal(a: real, b: real): real {
    if a < b then a else b
  }

  function AvailableWidth(canvasWidth: real): real {
    MaxReal(400.0, canvasWidth - PAD_X * 2.0)
  }

  function AvailableHeight(canvasHeight: real): real {
    MaxReal(300.0, canvasHeight - PAD_Y * 2.0)
  }

  function ColSpacing(maxRank: nat, canvasWidth: real): real {
    if maxRank == 0 then 0.0 else (AvailableWidth(canvasWidth) - NODE_W) / maxRank as real
  }

  function RowSpacing(largest: nat, canvasHeight: real): real {
    if largest <= 1 then 0.0
    else MinReal(110.0, (AvailableHeight(canvasHeight) - NODE_H) / (largest - 1) as real)
  }

  function XOf(r: nat, maxRank: nat, canvasWidth: real): real {
    PAD_X + r as real * ColSpacing(maxRank, canvasWidth)
  }

  function ColumnHeight(count: nat, largest: nat, canvasHeight: real): real {
    if count > 1 then (count - 1) as real * RowSpacing(largest, canvasHeight) + NODE_H else NODE_H
  }

  /** Columns are centred vertically. */
  function YOf(row: nat, count: nat, largest: nat, canvasHeight: real): real {
    PAD_Y + (AvailableHeight(canvasHeight) - ColumnHeight(count, largest, canvasHeight)) / 2.0
    + row as real * RowSpacing(largest, canvasHeight)
  }

  /** The room for columns is the canvas without its paddings, but never less than 400 by 300. */
  lemma RoomOfCanvas(canvasWidth: real, canvasHeight: real)
    ensures AvailableWidth(canvasWidth) >= 400.0 && AvailableWidth(canvasWidth) + 2.0 * PAD_X >= canvasWidth
    ensures canvasWidth >= 400.0 + 2.0 * PAD_X ==> AvailableWidth(canvasWidth) + 2.0 * PAD_X == canvasWidth
    ensures canvasWidth <= 400.0 + 2.0 * PAD_X ==> AvailableWidth(canvasWidth) == 400.0
    ensures AvailableHeight(canvasHeight) >= 300.0 && AvailableHeight(canvasHeight) + 2.0 * PAD_Y >= canvasHeight
    ensures canvasHeight >= 300.0 + 2.0 * PAD_Y ==> AvailableHeight(canvasHeight) + 2.0 * PAD_Y == canvasHeight
    ensures canvasHeight <= 300.0 + 2.0 * PAD_Y ==> AvailableHeight(canvasHeight) == 300.0
  {}

  lemma Scale(a: real, b: real, s: real)
    requires a <= b && s >= 0.0
    ensures a * s <= b * s
  {}

  lemma ColumnFits(r: nat, maxRank: nat, canvasWidth: real)
    requires r <= maxRank
    ensures PAD_X <= XOf(r, maxRank, canvasWidth) <= PAD_X + AvailableWidth(canvasWidth) - NODE_W
  {
    var s := ColSpacing(maxRank, canvasWidth);
    Scale(0.0, r as real, s);
    Scale(r as real, maxRank as real, s);
    if maxRank > 0 {
      assert maxRank as real * s == AvailableWidth(canvasWidth) - NODE_W;
    }
  }

  lemma Quotient(a: real, b: real)
    requires a > 0.0 && b > 0.0
    ensures a / b > 0.0 && a / b * b == a
  {}

  lemma RowSpacingFits(largest: nat, canvasHeight: real)
    requires largest > 0
    ensures 0.0 <= RowSpacing(largest, canvasHeight)
    ensures largest > 1 ==> RowSpacing(largest, canvasHeight) > 0.0
    ensures (largest - 1) as real * RowSpacing(largest, canvasHeight) <= AvailableHeight(canvasHeight) - NODE_H
  {
    if largest > 1 {
      var gaps := (largest - 1) as real;
      var room := AvailableHeight(canvasHeight) - NODE_H;
      Quotient(room, gaps);
      Scale(RowSpacing(largest, canvasHeight), room / gaps, gaps);
    }
  }

  lemma RowsStack(row: nat, count: nat, largest: nat, s: real, room: real)
    requires row < count <= largest && s >= 0.0
    requires (largest - 1) as real * s <= room
    ensures 0.0 <= row as real * s <= (count - 1) as real * s <= room
  {
    Scale(0.0, row as real, s);
    Scale(row as real, (count - 1) as real, s);
    Scale((count - 1) as real, (largest - 1) as real, s);
  }

  lemma RowFits(row: nat, count: nat, largest: nat, canvasHeight: real)
    requires row < count <= largest
    ensures PAD_Y <= YOf(row, count, largest, canvasHeight) <= PAD_Y + AvailableHeight(canvasHeight) - NODE_H
  {
    var s, height := RowSpacing(largest, canvasHeight), AvailableHeight(canvasHeight);
    RowSpacingFits(largest, canvasHeight);
    RowsStack(row, count, largest, s, height - NODE_H);
    var total := ColumnHeight(count, largest, canvasHeight);
    assert row as real * s <= total - NODE_H && total <= height;
  }

  /** A column leaves as much room above its first node as below its last. */
  lemma ColumnCentred(count: nat, largest: nat, canvasHeight: real)
    requires 0 < count <= largest
    ensures YOf(0, count, largest, canvasHeight) - PAD_Y
         == PAD_Y + AvailableHeight(canvasHeight) - (YOf(count - 1, count, largest, canvasHeight) + NODE_H)
  {}

  /** Rows are evenly spaced, at most 110 apart; the spacing is 110 unless the fullest column then
      would not fit, and in that case it fills the height from edge to edge. */
  lemma RowsEven(row: nat, count: nat, largest: nat, canvasHeight: real)
    ensures var s := RowSpacing(largest, canvasHeight);
            && YOf(row + 1, count, largest, canvasHeight) - YOf(row, count, largest, canvasHeight) == s <= 110.0
            && (largest > 1 && s < 110.0 ==>
                  && YOf(0, largest, largest, canvasHeight) == PAD_Y
                  && YOf(largest - 1, largest, largest, canvasHeight) + NODE_H
                     == PAD_Y + AvailableHeight(canvasHeight))
  {
    var s := RowSpacing(largest, canvasHeight);
    assert (row + 1) as real * s == row as real * s + s;
    if largest > 1 && s < 110.0 {
      Quotient(AvailableHeight(canvasHeight) - NODE_H, (largest - 1) as real);
      assert (largest - 1) as real * s == AvailableHeight(canvasHeight) - NODE_H;
    }
  }

  /** Several columns are evenly spaced from the left edge to the right edge. */
  lemma ColumnsSpan(r: nat, maxRank: nat, canvasWidth: real)
    requires maxRank > 0
    ensures XOf(0, maxRank, canvasWidth) == PAD_X
    ensures XOf(maxRank, maxRank, canvasWidth) + NODE_W == PAD_X + AvailableWidth(canvasWidth)
    ensures XOf(r + 1, maxRank, canvasWidth) - XOf(r, maxRank, canvasWidth) == ColSpacing(maxRank, canvasWidth)
  {
    var s := ColSpacing(maxRank, canvasWidth);
    Quotient(AvailableWidth(canvasWidth) - NODE_W, maxRank as real);
    assert maxRank as real * s == AvailableWidth(canvasWidth) - NODE_W;
    assert (r + 1) as real * s == r as real * s + s;
  }

  /** A single column stands at the left edge, not in the centre. */
  lemma SingleColumnIsLeft(canvasWidth: real)
    ensures XOf(0, 0, canvasWidth) == PAD_X
    ensures XOf(0, 0, canvasWidth) - PAD_X < PAD_X + AvailableWidth(canvasWidth) - (XOf(0, 0, canvasWidth) + NODE_W)
  {}

  lemma DistinctColumns(r: nat, q: nat, maxRank: nat, canvasWidth: real)
    requires r < q <= maxRank
    ensures XOf(r, maxRank, canvasWidth) < XOf(q, maxRank, canvasWidth)
  {
    var s := ColSpacing(maxRank, canvasWidth);
    assert s > 0.0;
    assert (q - r) as real * s > 0.0;
  }

  lemma DistinctRows(i: nat, j: nat, count: nat, largest: nat, canvasHeight: real)
    requires i < j < count <= largest
    ensures YOf(i, count, largest, canvasHeight) < YOf(j, count, largest, canvasHeight)
  {
    var s := RowSpacing(largest, canvasHeight);
    RowSpacingFits(largest, canvasHeight);
    assert (j - i) as real * s > 0.0;
  }

  // ----- buckets and placement -----

  type Buckets = map<nat, seq<Node>>

  ghost predicate RanksKnown(nodes: seq<Node>, rank: map<Id, nat>) {
    forall n :: n in nodes ==> n.id in rank
  }

  /** The nodes of rank `r`, in node order. */
  function Bucket(nodes: seq<Node>, rank: map<Id, nat>, r: nat): seq<Node> {
    if nodes == [] then []
    else
      var n := nodes[|nodes| - 1];
      Bucket(nodes[..|nodes| - 1], rank, r) + if n.id in rank && rank[n.id] == r then [n] else []
  }

  lemma {:induction false} BucketMembers(nodes: seq<Node>, rank: map<Id, nat>, r: nat)
    ensures forall n :: n in Bucket(nodes, rank, r) <==> n in nodes && n.id in rank && rank[n.id] == r
    ensures DistinctIds(nodes) ==> DistinctIds(Bucket(nodes, rank, r))
  {
    if nodes != [] {
      var n, rest := nodes[|nodes| - 1], nodes[..|nodes| - 1];
      assert nodes == rest + [n];
      BucketMembers(rest, rank, r);
      var b := Bucket(rest, rank, r);
      assert forall i :: 0 <= i < |b| ==> b[i] in b;
    }
  }

  /** Each bucket holds the nodes of its rank, in some order. */
  ghost predicate Arranged(nodes: seq<Node>, rank: map<Id, nat>, buckets: Buckets) {
    && (forall n :: n in nodes && n.id in rank ==> rank[n.id] in buckets)
    && (forall r :: r in buckets ==> multiset(buckets[r]) == multiset(Bucket(nodes, rank, r)))
  }

  function At(buckets: Buckets, r: nat): seq<Node> {
    if r in buckets then buckets[r] else []
  }

  lemma BucketGrows(nodes: seq<Node>, i: nat, rank: map<Id, nat>, r: nat)
    requires i < |nodes| && nodes[i].id in rank
    ensures Bucket(nodes[..i + 1], rank, r)
         == if rank[nodes[i].id] == r then Bucket(nodes[..i], rank, r) + [nodes[i]] else Bucket(nodes[..i], rank, r)
  {
    assert nodes[..i + 1][..i] == nodes[..i];
  }

  method FillBuckets(nodes: seq<Node>, rank: map<Id, nat>) returns (buckets: Buckets)
    requires RanksKnown(nodes, rank)
    ensures Arranged(nodes, rank, buckets)
  {
    buckets := map[];
    for i := 0 to |nodes|
      invariant forall k :: 0 <= k < i ==> rank[nodes[k].id] in buckets
      invariant forall r: nat :: At(buckets, r) == Bucket(nodes[..i], rank, r)
    {
      var n := nodes[i];
      ghost var before := buckets;
      var r := rank[n.id];
      if r !in buckets {
        buckets := buckets[r := []];
      }
      buckets := buckets[r := buckets[r] + [n]];
      forall q: nat
        ensures At(buckets, q) == Bucket(nodes[..i + 1], rank, q)
      {
        BucketGrows(nodes, i, rank, q);
        assert At(before, q) == Bucket(nodes[..i], rank, q);
      }
    }
    assert nodes[..|nodes|] == nodes;
    assert forall r :: r in buckets ==> buckets[r] == At(buckets, r);
  }

  /** Sorting the buckets by the median of their parents, seen as any reordering of each
      bucket that may depend on the buckets sorted so far; column 0 is left alone. */
  method SortBuckets(ghost nodes: seq<Node>, ghost rank: map<Id, nat>, maxRank: nat, buckets0: Buckets,
                     arrange: (Buckets, nat) -> seq<Node>)
    returns (buckets: Buckets)
    requires Arranged(nodes, rank, buckets0)
    requires forall b: Buckets, r: nat :: r in b ==> multiset(arrange(b, r)) == multiset(b[r])
    ensures Arranged(nodes, rank, buckets)
    ensures 0 in buckets0 ==> 0 in buckets && buckets[0] == buckets0[0]
  {
    buckets := buckets0;
    for r := 1 to maxRank + 1
      invariant Arranged(nodes, rank, buckets)
      invariant 0 in buckets0 ==> 0 in buckets && buckets[0] == buckets0[0]
    {
      if r in buckets {
        buckets := buckets[r := arrange(buckets, r)];
      }
    }
  }

  /** Where `organizeLayout` puts a node, given its column and the size of the grid. */
  function Place(n: Node, r: nat, bucket: seq<Node>, maxRank: nat, largest: nat, w: real, h: real): Node {
    n.(x := XOf(r, maxRank, w), y := YOf(IndexOf(bucket, n), |bucket|, largest, h))
  }

  ghost predicate InsideCanvas(n: Node, w: real, h: real) {
    && PAD_X <= n.x <= PAD_X + AvailableWidth(w) - NODE_W
    && PAD_Y <= n.y <= PAD_Y + AvailableHeight(h) - NODE_H
  }

  /** `y` is the height of the row that `n` takes in its column. */
  ghost predicate InRow(y: real, n: Node, column: seq<Node>, largest: nat, h: real) {
    exists row :: 0 <= row < |column| && column[row] == n && y == YOf(row, |column|, largest, h)
  }

  ghost predicate GridCovers(nodes: seq<Node>, rank: map<Id, nat>, maxRank: nat, largest: nat) {
    forall n :: n in nodes && n.id in rank ==>
      rank[n.id] <= maxRank && |Bucket(nodes, rank, rank[n.id])| <= largest
  }

  lemma InItsBucket(nodes: seq<Node>, rank: map<Id, nat>, buckets: Buckets, n: Node)
    requires Arranged(nodes, rank, buckets) && n in nodes && n.id in rank
    ensures rank[n.id] in buckets && n in buckets[rank[n.id]]
    ensures |buckets[rank[n.id]]| == |Bucket(nodes, rank, rank[n.id])|
  {
    var r := rank[n.id];
    BucketMembers(nodes, rank, r);
    assert n in multiset(Bucket(nodes, rank, r));
    assert |multiset(buckets[r])| == |multiset(Bucket(nodes, rank, r))|;
  }

  /** Any two distinct nodes land on distinct points inside the canvas, whatever order the
      sort gives each column. */
  lemma PlacedApart(nodes: seq<Node>, rank: map<Id, nat>, buckets: Buckets, maxRank: nat, largest: nat,
                    w: real, h: real, m: Node, n: Node)
    requires Arranged(nodes, rank, buckets) && GridCovers(nodes, rank, maxRank, largest)
    requires m in nodes && m.id in rank && n in nodes && n.id in rank
    ensures rank[m.id] in buckets && rank[n.id] in buckets
    ensures var p := Place(m, rank[m.id], buckets[rank[m.id]], maxRank, largest, w, h);
            var q := Place(n, rank[n.id], buckets[rank[n.id]], maxRank, largest, w, h);
            && InsideCanvas(p, w, h)
            && (m != n ==> p.x != q.x || p.y != q.y)
  {
    InItsBucket(nodes, rank, buckets, m);
    InItsBucket(nodes, rank, buckets, n);
    var r, q := rank[m.id], rank[n.id];
    ColumnFits(r, maxRank, w);
    RowFits(IndexOf(buckets[r], m), |buckets[r]|, largest, h);
    if r < q {
      DistinctColumns(r, q, maxRank, w);
    } else if q < r {
      DistinctColumns(q, r, maxRank, w);
    } else if m != n {
      var i, j := IndexOf(buckets[r], m), IndexOf(buckets[r], n);
      assert buckets[r][i] == m && buckets[r][j] == n;
      DistinctRows(if i < j then i else j, if i < j then j else i, |buckets[r]|, largest, h);
    }
  }

  method MaxRank(nodes: seq<Node>, rank: map<Id, nat>) returns (maxRank: nat)
    requires nodes != [] && RanksKnown(nodes, rank)
    ensures forall n :: n in nodes ==> rank[n.id] <= maxRank
    ensures exists n :: n in nodes && rank[n.id] == maxRank
  {
    ghost var widest := nodes[0];
    maxRank := rank[nodes[0].id];
    for i := 0 to |nodes|
      invariant widest in nodes && rank[widest.id] == maxRank
      invariant forall k :: 0 <= k < i ==> rank[nodes[k].id] <= maxRank
    {
      assert nodes[i] in nodes;
      if rank[nodes[i].id] > maxRank {
        maxRank, widest := rank[nodes[i].id], nodes[i];
      }
    }
  }

  method LargestBucket(nodes: seq<Node>, rank: map<Id, nat>, buckets: Buckets) returns (largest: nat)
    requires RanksKnown(nodes, rank)
    requires forall n :: n in nodes ==> rank[n.id] in buckets
    ensures forall n :: n in nodes ==> |buckets[rank[n.id]]| <= largest
    ensures largest == 0 || exists n :: n in nodes && |buckets[rank[n.id]]| == largest
  {
    largest := 0;
    for i := 0 to |nodes|
      invariant forall k :: 0 <= k < i ==> |buckets[rank[nodes[k].id]]| <= largest
      invariant largest == 0 || exists n :: n in nodes && |buckets[rank[n.id]]| == largest
    {
      assert nodes[i] in nodes;
      largest := Max(largest, |buckets[rank[nodes[i].id]]|);
    }
  }

  method PlaceAll(nodes: seq<Node>, rank: map<Id, nat>, buckets: Buckets, maxRank: nat, largest: nat, w: real, h: real)
    returns (laid: seq<Node>)
    requires RanksKnown(nodes, rank) && Arranged(nodes, rank, buckets)
    requires forall n :: n in nodes ==> rank[n.id] in buckets
    requires forall n :: n in nodes ==> rank[n.id] <= maxRank && |buckets[rank[n.id]]| <= largest
    ensures |laid| == |nodes|
    ensures forall i :: 0 <= i < |nodes| ==>
              && laid[i] == nodes[i].(x := laid[i].x, y := laid[i].y)
              && laid[i].x == XOf(rank[nodes[i].id], maxRank, w)
              && InsideCanvas(laid[i], w, h)
    ensures forall i :: 0 <= i < |nodes| ==> InRow(laid[i].y, nodes[i], buckets[rank[nodes[i].id]], largest, h)
    ensures forall i, j :: 0 <= i < |nodes| && 0 <= j < |nodes| && nodes[i] != nodes[j] ==>
              laid[i].x != laid[j].x || laid[i].y != laid[j].y
  {
    forall n | n in nodes
      ensures |Bucket(nodes, rank, rank[n.id])| <= largest
    {
      InItsBucket(nodes, rank, buckets, n);
    }
    laid := seq(|nodes|, i requires 0 <= i < |nodes| =>
      assert nodes[i] in nodes;
      Place(nodes[i], rank[nodes[i].id], buckets[rank[nodes[i].id]], maxRank, largest, w, h));
    forall i, j | 0 <= i < |nodes| && 0 <= j < |nodes|
      ensures InsideCanvas(laid[i], w, h)
      ensures nodes[i] != nodes[j] ==> laid[i].x != laid[j].x || laid[i].y != laid[j].y
    {
      PlacedApart(nodes, rank, buckets, maxRank, largest, w, h, nodes[i], nodes[j]);
    }
    forall i | 0 <= i < |nodes|
      ensures InRow(laid[i].y, nodes[i], buckets[rank[nodes[i].id]], largest, h)
    {
      InItsBucket(nodes, rank, buckets, nodes[i]);
      var column := buckets[rank[nodes[i].id]];
      assert column[IndexOf(column, nodes[i])] == nodes[i];
    }
  }

  /** Column r holds exactly the nodes of rank r, and the fullest column `largest` of them. */
  ghost predicate AreColumns(nodes: seq<Node>, edges: seq<Edge>, columns: Buckets, largest: nat) {
    && (forall r: nat, n: Node :: r in columns ==> (n in columns[r] <==> n in nodes && Rank(nodes, edges, n.id) == r))
    && (forall n :: n in nodes ==>
          Rank(nodes, edges, n.id) in columns && |columns[Rank(nodes, edges, n.id)]| <= largest)
    && (largest == 0 || exists n :: n in nodes && Rank(nodes, edges, n.id) in columns
                                    && |columns[Rank(nodes, edges, n.id)]| == largest)
  }

  lemma ArrangedColumns(nodes: seq<Node>, edges: seq<Edge>, rank: map<Id, nat>, buckets: Buckets, largest: nat)
    requires Arranged(nodes, rank, buckets)
    requires forall n :: n in nodes ==> n.id in rank && rank[n.id] == Rank(nodes, edges, n.id)
    requires forall n :: n in nodes ==> rank[n.id] in buckets && |buckets[rank[n.id]]| <= largest
    requires largest == 0 || exists n :: n in nodes && |buckets[rank[n.id]]| == largest
    ensures AreColumns(nodes, edges, buckets, largest)
  {
    forall r: nat, n: Node | r in buckets
      ensures n in buckets[r] <==> n in nodes && Rank(nodes, edges, n.id) == r
    {
      BucketMembers(nodes, rank, r);
      assert n in buckets[r] <==> n in multiset(buckets[r]);
      assert n in Bucket(nodes, rank, r) <==> n in multiset(Bucket(nodes, rank, r));
    }
  }

  /** The laid-out nodes keep everything but their position; columns follow the rank, and a node
      stands in the row that its column gives it. */
  method OrganizeLayout(nodes: seq<Node>, edges: seq<Edge>, canvasWidth: real, canvasHeight: real,
                        arrange: (Buckets, nat) -> seq<Node>)
    returns (laid: seq<Node>, ghost maxRank: nat, ghost columns: Buckets, ghost largest: nat)
    requires forall b: Buckets, r: nat :: r in b ==> multiset(arrange(b, r)) == multiset(b[r])
    ensures |laid| == |nodes|
    ensures AreColumns(nodes, edges, columns, largest)
    ensures forall i :: 0 <= i < |nodes| ==>
              var r := Rank(nodes, edges, nodes[i].id);
              r in columns && InRow(laid[i].y, nodes[i], columns[r], largest, canvasHeight)
    ensures forall i :: 0 <= i < |nodes| ==>
              && laid[i] == nodes[i].(x := laid[i].x, y := laid[i].y)
              && Rank(nodes, edges, nodes[i].id) <= maxRank
              && laid[i].x == XOf(Rank(nodes, edges, nodes[i].id), maxRank, canvasWidth)
              && InsideCanvas(laid[i], canvasWidth, canvasHeight)
    ensures nodes != [] ==> exists n :: n in nodes && Rank(nodes, edges, n.id) == maxRank
    ensures forall i, j :: 0 <= i < |nodes| && 0 <= j < |nodes| && nodes[i] != nodes[j] ==>
              laid[i].x != laid[j].x || laid[i].y != laid[j].y
  {
    maxRank, columns, largest := 0, map[], 0;
    if |nodes| == 0 {
      return nodes, maxRank, columns, largest;
    }
    var rank := ComputeRanks(nodes, edges);
    var buckets := FillBuckets(nodes, rank);
    var top := MaxRank(nodes, rank);
    buckets := SortBuckets(nodes, rank, top, buckets, arrange);
    var fullest := LargestBucket(nodes, rank, buckets);
    laid := PlaceAll(nodes, rank, buckets, top, fullest, canvasWidth, canvasHeight);
    maxRank, columns, largest := top, buckets, fullest;
    ArrangedColumns(nodes, edges, rank, buckets, fullest);
    assert forall i :: 0 <= i < |nodes| ==> nodes[i] in nodes;
  }
}
